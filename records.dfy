/** The records the script keeps in local storage, one datatype per kind of
    object literal it saves, and the persistence layer's slot abstraction. */
module Records {
  import opened Js

  /** An athlete profile, as built by `registerUser`. */
  datatype User = User(
    id: string, name: string, age: Number, gender: string,
    location: string, sport: string, createdAt: int)

  /** A timed activity. `speed` is the two-decimal rounding of distance/time
      that the caller's floating-point arithmetic produced. */
  datatype Entry = Entry(kind: string, distance: real, time: real, speed: real, ts: int)

  /** An uploaded video; `data` is the file's data URL. */
  datatype Video = Video(
    id: string, name: string, size: nat, duration: Number, data: string, ts: int)

  /** A community talent post. */
  datatype Post = Post(id: string, name: string, title: string, ts: int)

  /** The single dream-goal record. */
  datatype Dream = Dream(goal: string, progress: Number)

  /** What the file picker yields for the chosen file. */
  datatype FileInfo = FileInfo(name: string, size: nat)

  const RunKind: string := "run"
  const ManualRunKind: string := "run_manual"

  /** `h.type === 'run' || h.type === 'run_manual'`. */
  predicate IsRun(e: Entry)
  {
    e.kind == RunKind || e.kind == ManualRunKind
  }

  /** The fallback `load` uses for the dream key. */
  const DefaultDream: Dream := Dream("", Num(20.0))

  /** The quotes written on first start when the quotes key is empty. */
  const DefaultQuotes: seq<string> := [
    "Champions keep playing until they get it right.",
    "Hard work beats talent when talent doesn't work hard.",
    "Practice like you've never won. Perform like you've never lost.",
    "Small progress each day adds up to big results."
  ]

  /** The value stored under one local-storage key, seen through JSON:
      `Absent` when `getItem` gives null or the empty string, `Unreadable` when
      reading or `JSON.parse` throws, and `Holds(v)` when the text parses back
      to `v` (JSON.stringify followed by JSON.parse is taken to be the identity
      on these records, which holds for strings and finite numbers; a NaN is
      written as `null` and is not covered). */
  datatype Slot<T> = Absent | Unreadable | Holds(value: T)
  {
    /** `load(key, fallback)`: the stored value, or the fallback when there is
        none or it cannot be read. Never fails. */
    function Load(fallback: T): (r: T)
      ensures Holds? ==> r == value
      ensures !Holds? ==> r == fallback
    {
      if Holds? then value else fallback
    }
  }

  /** `save(key, val)`: the whole value replaces whatever the key held. */
  function Save<T>(v: T): (s: Slot<T>)
    ensures s.Holds?
  {
    Holds(v)
  }

  /** Round trip: what was saved is what is loaded, whatever the fallback. */
  lemma LoadAfterSave<T>(v: T, fallback: T)
    ensures Save(v).Load(fallback) == v
  {
  }

  /** A key never written, or holding text that cannot be read, loads as the
      caller's fallback. */
  lemma LoadMissingGivesFallback<T>(s: Slot<T>, fallback: T)
    requires s.Absent? || s.Unreadable?
    ensures s.Load(fallback) == fallback
  {
  }
}
