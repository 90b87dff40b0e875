/** The two calendar-diff helpers of the Google Calendar integrator: a
    dotted-path lookup into decoded JSON (`_get`) and the recursive check that
    every field of a locally built event body already agrees with the remote
    event (`_event_up_to_date`). */
module Gcal {
  import opened Wrappers

  /** Decoded JSON as Python holds it. An object is its list of fields in
      dict order; `Null` is Python's `None`. */
  datatype Value =
    | Null
    | Bool(b: bool)
    | Num(n: int)
    | Str(s: string)
    | Arr(items: seq<Value>)
    | Obj(fields: seq<(string, Value)>)

  /** What `datetime.fromisoformat` yields: a point on the clock in
      microseconds, and whether it carries a UTC offset. For an aware value
      `micros` is the UTC instant, for a naive one the wall-clock reading. */
  datatype Instant = Instant(micros: int, aware: bool)

  // ---------------------------------------------------------------- dicts

  /** The value stored under `k`: the first field with that key. */
  function Field(fs: seq<(string, Value)>, k: string): (r: Option<Value>)
    ensures r.Some? <==> exists i :: 0 <= i < |fs| && fs[i].0 == k
  {
    if fs == [] then None
    else if fs[0].0 == k then Some(fs[0].1)
    else
      assert forall i :: 1 <= i < |fs| ==> fs[i] == fs[1..][i - 1];
      Field(fs[1..], k)
  }

  /** `d.get(k)`: the stored value, `None` when the key is absent. */
  function DictGet(fs: seq<(string, Value)>, k: string): Value {
    match Field(fs, k)
    case Some(v) => v
    case None => Null
  }

  /** No key occurs twice in an object, at any depth: every dict Python
      decodes or builds has this shape. */
  ghost predicate WellKeyed(v: Value) {
    match v
    case Arr(xs) => forall i :: 0 <= i < |xs| ==> WellKeyed(xs[i])
    case Obj(fs) =>
      && (forall i, j :: 0 <= i < j < |fs| ==> fs[i].0 != fs[j].0)
      && (forall i :: 0 <= i < |fs| ==> WellKeyed(fs[i].1))
    case _ => true
  }

  /** With distinct keys, looking a field's key up finds that field. */
  lemma {:induction false} FieldAt(fs: seq<(string, Value)>, i: nat)
    requires i < |fs|
    requires forall p, q :: 0 <= p < q < |fs| ==> fs[p].0 != fs[q].0
    ensures Field(fs, fs[i].0) == Some(fs[i].1)
  {
    if i > 0 {
      assert fs[1..][i - 1] == fs[i];
      FieldAt(fs[1..], i - 1);
    }
  }

  /** Python's `==` on decoded JSON: `True == 1` and `False == 0`, lists
      element by element, dicts by size and then key by key regardless of
      order. */
  predicate Same(a: Value, b: Value)
    decreases a
  {
    match a
    case Null => b.Null?
    case Bool(x) => (b.Bool? && b.b == x) || (b.Num? && b.n == (if x then 1 else 0))
    case Num(n) => (b.Num? && b.n == n) || (b.Bool? && n == (if b.b then 1 else 0))
    case Str(t) => b.Str? && b.s == t
    case Arr(xs) =>
      && b.Arr? && |xs| == |b.items|
      && forall i :: 0 <= i < |xs| ==> Same(xs[i], b.items[i])
    case Obj(fs) =>
      && b.Obj? && |fs| == |b.fields|
      && forall i :: 0 <= i < |fs| ==>
           Field(b.fields, fs[i].0).Some? && Same(fs[i].1, Field(b.fields, fs[i].0).value)
  }

  /** Every well-keyed value equals itself. */
  lemma {:induction false} SameRefl(v: Value)
    requires WellKeyed(v)
    ensures Same(v, v)
    decreases v
  {
    match v
    case Arr(xs) =>
      forall i | 0 <= i < |xs| ensures Same(xs[i], xs[i]) {
        SameRefl(xs[i]);
      }
    case Obj(fs) =>
      forall i | 0 <= i < |fs|
        ensures Field(fs, fs[i].0).Some? && Same(fs[i].1, Field(fs, fs[i].0).value)
      {
        FieldAt(fs, i);
        SameRefl(fs[i].1);
      }
    case _ =>
  }

  // ---------------------------------------------------------------- _get

  /** `p.split(".")`: the pieces between the dots, empty ones included, so
      there is always at least one. */
  function Split(p: string): (r: seq<string>)
    ensures |r| >= 1
    ensures forall i :: 0 <= i < |r| ==> '.' !in r[i]
  {
    if p == [] then [[]]
    else if p[0] == '.' then [[]] + Split(p[1..])
    else
      var rest := Split(p[1..]);
      assert forall i :: 1 <= i < |rest| ==> ([[p[0]] + rest[0]] + rest[1..])[i] == rest[i];
      [[p[0]] + rest[0]] + rest[1..]
  }

  /** `".".join(parts)`. */
  function Join(parts: seq<string>): string
    requires |parts| >= 1
  {
    if |parts| == 1 then parts[0] else parts[0] + "." + Join(parts[1..])
  }

  /** Splitting at the dots loses nothing: joining the pieces gives the path back. */
  lemma {:induction false} JoinSplit(p: string)
    ensures Join(Split(p)) == p
  {
    if p != [] {
      JoinSplit(p[1..]);
      var rest := Split(p[1..]);
      if p[0] == '.' {
        assert p == "." + p[1..];
      } else if |rest| == 1 {
        assert p == [p[0]] + p[1..];
      } else {
        var r := [[p[0]] + rest[0]] + rest[1..];
        assert r[1..] == rest[1..];
        assert p == [p[0]] + p[1..];
      }
    }
  }

  /** Whether `p` occurs in `t` as a run of consecutive characters (Python's
      `p in t` on strings; the empty string occurs everywhere). */
  predicate Occurs(p: string, t: string) {
    (|p| <= |t| && t[..|p|] == p) || (|t| > 0 && Occurs(p, t[1..]))
  }

  /** One loop turn of `_get` at `v`: `Some(w)` moves on to `w`, `None` is
      "`route not in obj`, return None". A string or list that contains the
      route cannot be indexed by it, and anything other than a dict, string
      or list does not support `in`: both raise `TypeError`. */
  function Step(v: Value, route: string): (r: Result<Option<Value>>)
    ensures r.Success? && r.value.Some? <==> v.Obj? && Field(v.fields, route).Some?
    ensures r.Success? && r.value.Some? ==> r.value.value == Field(v.fields, route).value
    ensures r.Failure? ==> r.error == "TypeError"
  {
    match v
    case Obj(fs) =>
      if Field(fs, route).None? then Success(None) else Success(Some(Field(fs, route).value))
    case Str(t) =>
      if Occurs(route, t) then Failure("TypeError") else Success(None)
    case Arr(xs) =>
      if Str(route) in xs then Failure("TypeError") else Success(None)
    case _ => Failure("TypeError")
  }

  /** The loop of `_get` over the remaining routes, from the value reached. */
  function Lookup(v: Value, routes: seq<string>): Result<Value>
    decreases |routes|
  {
    if routes == [] then Success(v)
    else
      match Step(v, routes[0])
      case Failure(e) => Failure(e)
      case Success(None) => Success(Null)
      case Success(Some(w)) => Lookup(w, routes[1..])
  }

  /** `_get(obj, path)`. */
  function GetPath(obj: Value, path: string): Result<Value> {
    if obj.Null? then Success(Null) else Lookup(obj, Split(path))
  }

  /** The reference reading of a dotted path: descend through dicts only,
      one key per route; `None` when some route is not a key at its level. */
  function Follow(v: Value, routes: seq<string>): Option<Value>
    decreases |routes|
  {
    if routes == [] then Some(v)
    else if v.Obj? && Field(v.fields, routes[0]).Some? then
      Follow(Field(v.fields, routes[0]).value, routes[1..])
    else None
  }

  /** `_get` itself: walks the path segment by segment, replacing the value
      it holds by the child under each route. */
  method Get(obj: Value, path: string) returns (r: Result<Value>)
    ensures r == GetPath(obj, path)
    ensures obj.Null? ==> r == Success(Null)
  {
    if obj.Null? {
      return Success(Null);
    }
    var routes := Split(path);
    var cur := obj;
    var i := 0;
    while i < |routes|
      invariant 0 <= i <= |routes|
      invariant Lookup(cur, routes[i..]) == Lookup(obj, routes)
    {
      assert routes[i..][1..] == routes[i + 1..];
      var step := Step(cur, routes[i]);
      if step.Failure? {
        return Failure(step.error);
      }
      if step.value.None? {
        return Success(Null);
      }
      cur := step.value.value;
      i := i + 1;
    }
    assert routes[i..] == [];
    return Success(cur);
  }

  /** When every route names a key of the dict reached so far, `_get`
      returns the value at the end of the path. */
  lemma {:induction false} LookupFollows(v: Value, routes: seq<string>)
    requires Follow(v, routes).Some?
    ensures Lookup(v, routes) == Success(Follow(v, routes).value)
    decreases |routes|
  {
    if routes != [] {
      LookupFollows(Field(v.fields, routes[0]).value, routes[1..]);
    }
  }

  /** When the first `j` routes lead through dicts to a dict without the next
      route, `_get` returns `None`, whatever the rest of the path is. */
  lemma {:induction false} LookupMissing(v: Value, routes: seq<string>, j: nat)
    requires j < |routes|
    requires Follow(v, routes[..j]).Some? && Follow(v, routes[..j]).value.Obj?
    requires Field(Follow(v, routes[..j]).value.fields, routes[j]).None?
    ensures Lookup(v, routes) == Success(Null)
    decreases |routes|
  {
    if j > 0 {
      assert routes[1..][..j - 1] == routes[1..j] == routes[..j][1..];
      assert routes[1..][j - 1] == routes[j];
      LookupMissing(Field(v.fields, routes[0]).value, routes[1..], j - 1);
    }
  }

  /** Conversely, whatever `_get` returns without raising is either the
      value at the end of a dict-only walk or `None`; it raises only
      `TypeError`, and only after reaching a value that is not a dict. */
  lemma {:induction false} LookupOutcome(v: Value, routes: seq<string>)
    ensures Lookup(v, routes).Success? && Lookup(v, routes).value != Null
            ==> Follow(v, routes) == Some(Lookup(v, routes).value)
    ensures Lookup(v, routes).Failure? ==>
            && Lookup(v, routes).error == "TypeError"
            && exists j :: 0 <= j < |routes| && Follow(v, routes[..j]).Some?
                           && !Follow(v, routes[..j]).value.Obj?
    decreases |routes|
  {
    if routes != [] {
      assert routes[..0] == [];
      var step := Step(v, routes[0]);
      if step.Success? && step.value.Some? {
        var w := step.value.value;
        LookupOutcome(w, routes[1..]);
        if Lookup(w, routes[1..]).Failure? {
          var j :| 0 <= j < |routes[1..]| && Follow(w, routes[1..][..j]).Some?
                   && !Follow(w, routes[1..][..j]).value.Obj?;
          assert routes[..j + 1][1..] == routes[1..][..j];
          assert Follow(v, routes[..j + 1]) == Follow(w, routes[1..][..j]);
        }
      }
    }
  }

  // ---------------------------------------------------- _event_up_to_date

  /** The comparison of one non-dict field `c` of the child with `s`, the
      remote value under the same key. When `c` parses as a timestamp, the
      two agree only if `s` parses to the same instant: a different instant
      gives a nonzero difference, mixing naive and aware values makes the
      subtraction raise `TypeError` and the fall-through `!=` then sees two
      unequal datetimes, and an `s` that does not parse makes `!=` compare a
      datetime with a raw value. Otherwise the raw values are compared. */
  predicate Agree(c: Value, s: Value, parse: string -> Option<Instant>) {
    if c.Str? && parse(c.s).Some? then s.Str? && parse(s.s) == parse(c.s)
    else Same(c, s)
  }

  /** The loop of `_event_up_to_date(sup, child)` from the `i`-th key of
      `child` on. `sup.get` on anything but a dict raises `AttributeError`. */
  function UpToDateFrom(sup: Value, child: seq<(string, Value)>, i: nat,
                        parse: string -> Option<Instant>): Result<bool>
    requires i <= |child|
    decreases Obj(child), |child| - i
  {
    if i == |child| then Success(true)
    else if !sup.Obj? then Failure("AttributeError")
    else
      var c := child[i].1;
      var s := DictGet(sup.fields, child[i].0);
      if c.Obj? then
        match UpToDateFrom(s, c.fields, 0, parse)
        case Failure(e) => Failure(e)
        case Success(ok) => if !ok then Success(false) else UpToDateFrom(sup, child, i + 1, parse)
      else if !Agree(c, s, parse) then Success(false)
      else UpToDateFrom(sup, child, i + 1, parse)
  }

  /** `_event_up_to_date(sup, child)` with `fromisoformat` given as `parse`. */
  function UpToDate(sup: Value, child: seq<(string, Value)>,
                    parse: string -> Option<Instant>): Result<bool> {
    UpToDateFrom(sup, child, 0, parse)
  }

  /** The reference reading of "the remote event already has everything the
      child says": every field of `child` from the `i`-th on agrees with the
      value `sup` holds under its key, nested dicts recursively. */
  ghost predicate Covers(sup: Value, child: seq<(string, Value)>, i: nat,
                         parse: string -> Option<Instant>)
    requires i <= |child|
    decreases Obj(child), |child| - i
  {
    if i == |child| then true
    else
      && sup.Obj?
      && (var c := child[i].1;
          var s := DictGet(sup.fields, child[i].0);
          if c.Obj? then Covers(s, c.fields, 0, parse) else Agree(c, s, parse))
      && Covers(sup, child, i + 1, parse)
  }

  /** `_event_up_to_date` answers True exactly when the child is covered:
      it never answers True while some field disagrees, and it neither
      raises nor answers False while every field agrees. */
  lemma {:induction false} UpToDateCovers(sup: Value, child: seq<(string, Value)>, i: nat,
                                          parse: string -> Option<Instant>)
    requires i <= |child|
    ensures UpToDateFrom(sup, child, i, parse) == Success(true) <==> Covers(sup, child, i, parse)
    decreases Obj(child), |child| - i
  {
    if i < |child| && sup.Obj? {
      var c := child[i].1;
      if c.Obj? {
        UpToDateCovers(DictGet(sup.fields, child[i].0), c.fields, 0, parse);
      }
      UpToDateCovers(sup, child, i + 1, parse);
    }
  }

  /** An empty child is always up to date, even against a remote value that
      is not a dict; a non-empty one needs a dict to read from. */
  lemma UpToDateEmpty(sup: Value, child: seq<(string, Value)>, parse: string -> Option<Instant>)
    ensures UpToDate(sup, [], parse) == Success(true)
    ensures child != [] && !sup.Obj? ==> UpToDate(sup, child, parse) == Failure("AttributeError")
  {
  }

  /** Only the remote values under the child's own keys are read: two remote
      dicts that agree on those keys get the same answer, so keys present
      only on the remote side never matter. */
  lemma {:induction false} UpToDateIgnoresOtherKeys(sup: Value, sup': Value, child: seq<(string, Value)>,
                                                    i: nat, parse: string -> Option<Instant>)
    requires i <= |child|
    requires sup.Obj? && sup'.Obj?
    requires forall j :: i <= j < |child| ==> DictGet(sup.fields, child[j].0) == DictGet(sup'.fields, child[j].0)
    ensures UpToDateFrom(sup, child, i, parse) == UpToDateFrom(sup', child, i, parse)
    decreases |child| - i
  {
    if i < |child| {
      UpToDateIgnoresOtherKeys(sup, sup', child, i + 1, parse);
    }
  }

  /** Fields that agree are passed over: from the `j`-th field up to the
      `i`-th the loop continues without raising or answering. */
  lemma {:induction false} UpToDateSkipsAgreeing(sup: Value, child: seq<(string, Value)>, j: nat, i: nat,
                                                 parse: string -> Option<Instant>)
    requires j <= i <= |child|
    requires Covers(sup, child[..i], j, parse)
    ensures UpToDateFrom(sup, child, j, parse) == UpToDateFrom(sup, child, i, parse)
    decreases i - j
  {
    if j < i {
      assert child[..i][j] == child[j];
      var c := child[j].1;
      if c.Obj? {
        UpToDateCovers(DictGet(sup.fields, child[j].0), c.fields, 0, parse);
      }
      UpToDateSkipsAgreeing(sup, child, j + 1, i, parse);
    }
  }

  /** A non-dict child value that is not a parsable timestamp and differs
      from the remote value makes the answer False, once the fields before
      it agree. */
  lemma UpToDateMismatch(sup: Value, child: seq<(string, Value)>, i: nat,
                         parse: string -> Option<Instant>)
    requires i < |child| && sup.Obj?
    requires Covers(sup, child[..i], 0, parse)
    requires !child[i].1.Obj? && !(child[i].1.Str? && parse(child[i].1.s).Some?)
    requires !Same(child[i].1, DictGet(sup.fields, child[i].0))
    ensures UpToDate(sup, child, parse) == Success(false)
  {
    UpToDateSkipsAgreeing(sup, child, 0, i, parse);
  }

  /** Two timestamps that parse to the same instant agree however their texts
      differ (another UTC offset, another spelling), and the loop moves on. */
  lemma UpToDateSameInstant(sup: Value, child: seq<(string, Value)>, i: nat,
                            parse: string -> Option<Instant>)
    requires i < |child| && sup.Obj?
    requires child[i].1.Str? && DictGet(sup.fields, child[i].0).Str?
    requires parse(child[i].1.s).Some?
    requires parse(child[i].1.s) == parse(DictGet(sup.fields, child[i].0).s)
    ensures UpToDateFrom(sup, child, i, parse) == UpToDateFrom(sup, child, i + 1, parse)
  {
  }

  /** A dict always covers itself. */
  lemma {:induction false} CoversRefl(fs: seq<(string, Value)>, i: nat, parse: string -> Option<Instant>)
    requires i <= |fs|
    requires WellKeyed(Obj(fs))
    ensures Covers(Obj(fs), fs, i, parse)
    decreases Obj(fs), |fs| - i
  {
    if i < |fs| {
      var c := fs[i].1;
      FieldAt(fs, i);
      assert DictGet(fs, fs[i].0) == c;
      if c.Obj? {
        CoversRefl(c.fields, 0, parse);
      } else if !(c.Str? && parse(c.s).Some?) {
        SameRefl(c);
      }
      CoversRefl(fs, i + 1, parse);
    }
  }

  /** Reflexivity: an event body is up to date with itself. */
  lemma UpToDateRefl(fs: seq<(string, Value)>, parse: string -> Option<Instant>)
    requires WellKeyed(Obj(fs))
    ensures UpToDate(Obj(fs), fs, parse) == Success(true)
  {
    CoversRefl(fs, 0, parse);
    UpToDateCovers(Obj(fs), fs, 0, parse);
  }
}
