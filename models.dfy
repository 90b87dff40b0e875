/** The entities the scheduler works on: the recognised flag table, events,
    schedules and busy blocks. Times are whole seconds on one clock. */
module Models {
  import opened Wrappers

  /** The fixed table of recognised flags. */
  datatype Flag =
    | NoBox
    | P1 | P2 | P3 | P4 | Minor
    | Easy | Medium | Hard
    | Morning | Afternoon | Evening | Daytime
    | DeadlineFlag

  /** The name under which each flag appears in the table. */
  function FlagName(f: Flag): string {
    match f
    case NoBox => "nobox"
    case P1 => "p1"
    case P2 => "p2"
    case P3 => "p3"
    case P4 => "p4"
    case Minor => "minor"
    case Easy => "easy"
    case Medium => "medium"
    case Hard => "hard"
    case Morning => "morning"
    case Afternoon => "afternoon"
    case Evening => "evening"
    case Daytime => "daytime"
    case DeadlineFlag => "deadline"
  }

  /** Looks a flag name up in the table; names outside it are not flags. */
  function ParseFlag(name: string): (r: Option<Flag>)
    ensures r.Some? ==> FlagName(r.value) == name
  {
    if name == "nobox" then Some(NoBox)
    else if name == "p1" then Some(P1)
    else if name == "p2" then Some(P2)
    else if name == "p3" then Some(P3)
    else if name == "p4" then Some(P4)
    else if name == "minor" then Some(Minor)
    else if name == "easy" then Some(Easy)
    else if name == "medium" then Some(Medium)
    else if name == "hard" then Some(Hard)
    else if name == "morning" then Some(Morning)
    else if name == "afternoon" then Some(Afternoon)
    else if name == "evening" then Some(Evening)
    else if name == "daytime" then Some(Daytime)
    else if name == "deadline" then Some(DeadlineFlag)
    else None
  }

  /** Every flag's table name reads back as that flag, so names are distinct. */
  lemma ParseFlagName(f: Flag)
    ensures ParseFlag(FlagName(f)) == Some(f)
  {
  }

  /** A schedulable task. `duration` is in seconds and, like the database
      column, may be negative; `scheduled` unset means "not placed". Fields
      the core never reads (content, source identity) are not modelled; `id`
      is the primary key, which Django uses for `==`. */
  datatype Event = Event(
    id: nat,
    inception: Option<int>,
    deadline: Option<int>,
    duration: Option<int>,
    scheduled: Option<int>,
    completed: bool,
    flags: set<Flag>,
    contexts: set<string>)

  /** The event has no duration or a non-negative one, so the busy block it
      adds runs forwards. Nothing in the source enforces this. */
  predicate ForwardDuration(e: Event) {
    e.duration.None? || e.duration.value >= 0
  }

  datatype Behavior = Consistency | Efficiency

  /** A user's scheduling configuration; `rescheduleAfter` is in minutes. */
  datatype Schedule = Schedule(behavior: Behavior, rescheduleAfter: int)

  /** A busy interval `[start, end)`. */
  datatype Block = Block(start: int, end: int)
}
