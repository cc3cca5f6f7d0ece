/**
 * The in-memory log buffer behind the admin log page: a bounded first-in,
 * first-out queue of entries that is read newest first.
 */
module Logger {
  import opened Common

  /** The severity of a log record. */
  datatype Level = Error | Warn | Info | Debug | Trace

  /** A level's display name, as stored in an entry. */
  function LevelName(level: Level): string
  {
    match level
    case Error => "ERROR"
    case Warn => "WARN"
    case Info => "INFO"
    case Debug => "DEBUG"
    case Trace => "TRACE"
  }

  /** A stored entry; its timestamp is not part of the model. */
  datatype LogEntry = LogEntry(level: string, message: string, moduleName: string)

  /** The entry `add_entry` stores: the module defaults to "app". */
  function MakeEntry(level: Level, message: string, moduleName: Option<string>): (e: LogEntry)
    ensures e.level == LevelName(level) && e.message == message
    ensures moduleName.Some? ==> e.moduleName == moduleName.value
    ensures moduleName.None? ==> e.moduleName == "app"
  {
    LogEntry(LevelName(level), message, if moduleName.Some? then moduleName.value else "app")
  }

  /** How many entries the buffer can hold: a limit of 0 still keeps the newest one. */
  function Capacity(maxEntries: nat): nat
  {
    if maxEntries == 0 then 1 else maxEntries
  }

  /** The buffer after one push: at or over the limit, the oldest entry goes first. */
  function Pushed(entries: seq<LogEntry>, maxEntries: nat, entry: LogEntry): seq<LogEntry>
  {
    (if |entries| >= maxEntries && entries != [] then entries[1..] else entries) + [entry]
  }

  /** The buffer after pushing `added` in order. */
  function PushedAll(entries: seq<LogEntry>, maxEntries: nat, added: seq<LogEntry>): seq<LogEntry>
  {
    if added == [] then entries
    else Pushed(PushedAll(entries, maxEntries, added[..|added| - 1]), maxEntries, added[|added| - 1])
  }

  function Reversed<T>(s: seq<T>): (r: seq<T>)
    ensures |r| == |s|
    ensures forall i :: 0 <= i < |s| ==> r[i] == s[|s| - 1 - i]
  {
    if s == [] then [] else [s[|s| - 1]] + Reversed(s[..|s| - 1])
  }

  class LogCollector {
    var entries: seq<LogEntry>
    const maxEntries: nat

    /** The buffer never holds more than its capacity. */
    ghost predicate Valid()
      reads this
    {
      |entries| <= Capacity(maxEntries)
    }

    /** `new`: an empty buffer with the given limit. */
    constructor (maxEntries: nat)
      ensures Valid()
      ensures entries == [] && this.maxEntries == maxEntries
    {
      entries := [];
      this.maxEntries := maxEntries;
    }

    /** `add_entry`: drops the oldest entry when the limit is reached, then appends. */
    method AddEntry(level: Level, message: string, moduleName: Option<string>)
      requires Valid()
      modifies this
      ensures Valid()
      ensures entries == Pushed(old(entries), maxEntries, MakeEntry(level, message, moduleName))
    {
      var entry := MakeEntry(level, message, moduleName);
      if |entries| >= maxEntries {
        if entries != [] {
          entries := entries[1..];
        }
      }
      entries := entries + [entry];
    }

    /** `get_entries`: a copy of the buffer, newest first; the buffer is only read. */
    method GetEntries() returns (result: seq<LogEntry>)
      ensures result == Reversed(entries)
    {
      result := [];
      for i := 0 to |entries|
        invariant result == Reversed(entries[..i])
      {
        assert entries[..i + 1][..i] == entries[..i];
        result := [entries[i]] + result;
      }
      assert entries[..|entries|] == entries;
    }

    /** `clear`: empties the buffer. */
    method Clear()
      requires Valid()
      modifies this
      ensures Valid()
      ensures entries == []
    {
      entries := [];
    }
  }

  /** Right after an entry is added it is the first one `get_entries` returns. */
  lemma NewestComesFirst(entries: seq<LogEntry>, maxEntries: nat, entry: LogEntry)
    ensures Reversed(Pushed(entries, maxEntries, entry))[0] == entry
  {
  }

  /** Reading newest first, twice, gives back insertion order. */
  lemma {:induction false} ReversedTwice<T>(s: seq<T>)
    ensures Reversed(Reversed(s)) == s
  {
    var r := Reversed(Reversed(s));
    assert |r| == |s|;
    forall i | 0 <= i < |s|
      ensures r[i] == s[i]
    {
      assert r[i] == Reversed(s)[|s| - 1 - i];
    }
  }

  /** A push keeps the buffer within its capacity. */
  lemma PushedWithinCapacity(entries: seq<LogEntry>, maxEntries: nat, entry: LogEntry)
    requires |entries| <= Capacity(maxEntries)
    ensures |Pushed(entries, maxEntries, entry)| <= Capacity(maxEntries)
  {
  }

  /** How many of `count` added entries a buffer started empty still holds. */
  function Kept(count: nat, maxEntries: nat): nat
  {
    if count < Capacity(maxEntries) then count else Capacity(maxEntries)
  }

  /** One push moves the window of most recent entries along by one. */
  lemma PushWindow(init: seq<LogEntry>, maxEntries: nat, x: LogEntry)
    ensures Pushed(init[|init| - Kept(|init|, maxEntries)..], maxEntries, x)
         == (init + [x])[|init| + 1 - Kept(|init| + 1, maxEntries)..]
  {
    var before := init[|init| - Kept(|init|, maxEntries)..];
    var from := |init| + 1 - Kept(|init| + 1, maxEntries);
    if |before| >= maxEntries && before != [] {
      assert from == |init| - Kept(|init|, maxEntries) + 1;
      assert before[1..] == init[from..];
    } else {
      assert from == |init| - Kept(|init|, maxEntries);
    }
    assert init[from..] + [x] == (init + [x])[from..];
  }

  /**
   * Starting from an empty buffer, the buffer holds exactly the most recent
   * entries added, as many as its capacity allows, oldest first.
   */
  lemma {:induction false} KeepsMostRecent(maxEntries: nat, added: seq<LogEntry>)
    ensures PushedAll([], maxEntries, added) == added[|added| - Kept(|added|, maxEntries)..]
  {
    if added != [] {
      var n := |added| - 1;
      KeepsMostRecent(maxEntries, added[..n]);
      PushWindow(added[..n], maxEntries, added[n]);
      assert added[..n] + [added[n]] == added;
    }
  }
}
