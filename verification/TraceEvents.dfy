/**
 From trace events to SQL statements: `DefaultRequestWrapper.loadEvents` and
 `DefaultJdbcSqlWrapperFactory`.

 The list is cut from each ENTRY to the first later EXIT of the same method.  Either the whole
 list can be cut like that, into statements of the right shape, and then it is, or the call
 fails, keeping the statements found before the failure.
 */
module TraceEvents {
  import opened JavaText
  import opened Wrappers

  datatype EventType = ENTRY | ARG | RETURN | EXIT | BRANCH

  datatype TraceEvent = TraceEvent(
    eventType: EventType, methodName: string, className: string, value: string,
    agentTime: int, clientTime: int, stackTrace: seq<string>)

  datatype Statement = Statement(
    sequence: int, sqlText: string, entryTime: int, exitTime: int, clientTime: int, stackTrace: seq<string>)

  datatype Failure = NoEntry | NoExit | NotAnEntry | NotAnArg | NotAnExit | ArgClassDiffers | ExitClassDiffers

  // ---------- the promise ----------

  /** The events of one statement: `entry` and `exit` are places in the list, both included. */
  datatype Range = Range(entry: nat, exit: nat)

  /** The first ENTRY from `start` on, and the first EXIT of its method after that. */
  predicate IsNext(events: seq<TraceEvent>, start: nat, r: Range)
  {
    start <= r.entry < r.exit < |events| &&
    events[r.entry].eventType == ENTRY && (forall k | start <= k < r.entry :: events[k].eventType != ENTRY) &&
    IsExit(events, r.exit, events[r.entry].methodName) &&
    forall k | r.entry < k < r.exit :: !IsExit(events, k, events[r.entry].methodName)
  }

  predicate NoEntryFrom(events: seq<TraceEvent>, start: nat)
  {
    forall k | start <= k < |events| :: events[k].eventType != ENTRY
  }

  predicate IsExit(events: seq<TraceEvent>, k: nat, methodName: string)
    requires k < |events|
  {
    events[k].eventType == EXIT && events[k].methodName == methodName
  }

  function Part(events: seq<TraceEvent>, r: Range): seq<TraceEvent>
    requires r.entry <= r.exit < |events|
  {
    events[r.entry..r.exit + 1]
  }

  /** ENTRY, ARG, anything, EXIT, the three in the same class. */
  predicate WellFormed(part: seq<TraceEvent>)
  {
    |part| >= 2 && part[0].eventType == ENTRY && part[1].eventType == ARG && part[|part| - 1].eventType == EXIT &&
    part[0].className == part[1].className == part[|part| - 1].className
  }

  predicate IsStatement(events: seq<TraceEvent>, r: Range)
  {
    r.entry <= r.exit < |events| && WellFormed(Part(events, r))
  }

  /** From `start` on, each range is the next one, and it makes a statement. */
  predicate Cut(events: seq<TraceEvent>, start: nat, ranges: seq<Range>)
    decreases |ranges|
  {
    ranges == [] ||
    (IsNext(events, start, ranges[0]) && IsStatement(events, ranges[0]) &&
     Cut(events, ranges[0].exit + 1, ranges[1..]))
  }

  /** Where the search goes on after `ranges`. */
  function End(start: nat, ranges: seq<Range>): nat
  {
    if ranges == [] then start else ranges[|ranges| - 1].exit + 1
  }

  /** The whole list, up to its last event, is cut into statements. */
  predicate Whole(events: seq<TraceEvent>, start: nat, ranges: seq<Range>)
  {
    Cut(events, start, ranges) && End(start, ranges) == |events|
  }

  function StatementOf(part: seq<TraceEvent>, sequence: int): Statement
    requires WellFormed(part)
  {
    var exit := part[|part| - 1];
    Statement(sequence, OneLine(part[1].value), part[0].agentTime, exit.agentTime, exit.clientTime, exit.stackTrace)
  }

  /** The text is that of the second event, the entry time that of the first, all else comes from the last. */
  predicate IsMadeOf(s: Statement, part: seq<TraceEvent>)
    requires |part| >= 2
  {
    var last := part[|part| - 1];
    s.entryTime == part[0].agentTime && s.exitTime == last.agentTime && s.clientTime == last.clientTime &&
    s.stackTrace == last.stackTrace && s.sqlText == OneLine(part[1].value)
  }

  predicate AllStatements(events: seq<TraceEvent>, ranges: seq<Range>)
  {
    forall k | 0 <= k < |ranges| :: IsStatement(events, ranges[k])
  }

  function StatementsOf(events: seq<TraceEvent>, ranges: seq<Range>, first: int): seq<Statement>
    requires AllStatements(events, ranges)
  {
    seq(|ranges|, k requires 0 <= k < |ranges| => StatementOf(Part(events, ranges[k]), first + k))
  }

  // ---------- it has one answer ----------

  lemma NextIsUnique(events: seq<TraceEvent>, start: nat, r: Range, q: Range)
    requires IsNext(events, start, r) && IsNext(events, start, q)
    ensures r == q
  {
  }

  /** The ranges are disjoint, in order, and behind `start`. */
  lemma {:induction false} RangesInOrder(events: seq<TraceEvent>, start: nat, ranges: seq<Range>)
    requires Cut(events, start, ranges)
    ensures forall k | 0 <= k < |ranges| :: start <= ranges[k].entry < ranges[k].exit < |events|
    ensures forall j, k | 0 <= j < k < |ranges| :: ranges[j].exit < ranges[k].entry
    ensures AllStatements(events, ranges)
    decreases |ranges|
  {
    if ranges != [] {
      RangesInOrder(events, ranges[0].exit + 1, ranges[1..]);
      assert forall k | 1 <= k < |ranges| :: ranges[k] == ranges[1..][k - 1];
    }
  }

  /** Two ways to cut a whole list are the same. */
  lemma {:induction false} WholeIsUnique(events: seq<TraceEvent>, start: nat, a: seq<Range>, b: seq<Range>)
    requires Whole(events, start, a) && Whole(events, start, b)
    ensures a == b
    decreases |a|
  {
    if a != [] && b != [] {
      NextIsUnique(events, start, a[0], b[0]);
      WholeIsUnique(events, a[0].exit + 1, a[1..], b[1..]);
      assert a == [a[0]] + a[1..] && b == [b[0]] + b[1..];
    }
  }

  /** Where the next range is missing, or makes no statement, there is no way to cut the list. */
  lemma {:induction false} NoWayOn(events: seq<TraceEvent>, start: nat, ranges: seq<Range>, full: seq<Range>)
    requires Cut(events, start, ranges) && End(start, ranges) < |events|
    requires forall r | IsNext(events, End(start, ranges), r) :: !IsStatement(events, r)
    ensures !Whole(events, start, full)
    decreases |ranges|
  {
    if ranges != [] && full != [] && IsNext(events, start, full[0]) {
      NextIsUnique(events, start, ranges[0], full[0]);
      NoWayOn(events, ranges[0].exit + 1, ranges[1..], full[1..]);
    } else if ranges != [] {
      RangesInOrder(events, start, ranges);
    }
  }

  lemma NoWayAtAll(events: seq<TraceEvent>, ranges: seq<Range>)
    requires Cut(events, 0, ranges) && End(0, ranges) < |events|
    requires forall r | IsNext(events, End(0, ranges), r) :: !IsStatement(events, r)
    ensures forall full :: !Whole(events, 0, full)
  {
    forall full ensures !Whole(events, 0, full) {
      NoWayOn(events, 0, ranges, full);
    }
  }

  lemma {:induction false} CutMore(events: seq<TraceEvent>, start: nat, ranges: seq<Range>, r: Range)
    requires Cut(events, start, ranges) && IsNext(events, End(start, ranges), r) && IsStatement(events, r)
    ensures Cut(events, start, ranges + [r])
    decreases |ranges|
  {
    if ranges == [] {
      assert (ranges + [r])[1..] == [];
    } else {
      CutMore(events, ranges[0].exit + 1, ranges[1..], r);
      assert (ranges + [r])[1..] == ranges[1..] + [r];
    }
  }

  // ---------- blocks come back ----------

  /** A well-formed block: the first EXIT of the method it enters is its last event. */
  predicate IsBlock(block: seq<TraceEvent>)
  {
    WellFormed(block) && IsExit(block, |block| - 1, block[0].methodName) &&
    forall k | 0 < k < |block| - 1 :: !IsExit(block, k, block[0].methodName)
  }

  function Concat(blocks: seq<seq<TraceEvent>>): seq<TraceEvent>
  {
    if blocks == [] then [] else blocks[0] + Concat(blocks[1..])
  }

  /** On a concatenation of blocks exactly those blocks are found, and made into statements. */
  lemma BlocksComeBack(blocks: seq<seq<TraceEvent>>) returns (ranges: seq<Range>)
    requires forall k | 0 <= k < |blocks| :: IsBlock(blocks[k])
    ensures Whole(Concat(blocks), 0, ranges) && PartsAre(Concat(blocks), ranges, blocks)
  {
    var events := Concat(blocks);
    assert events[0..] == events;
    ranges := BlocksFrom(events, 0, blocks);
  }

  predicate PartsAre(events: seq<TraceEvent>, ranges: seq<Range>, blocks: seq<seq<TraceEvent>>)
  {
    |ranges| == |blocks| &&
    forall k | 0 <= k < |blocks| ::
      ranges[k].entry <= ranges[k].exit < |events| && Part(events, ranges[k]) == blocks[k]
  }

  lemma {:induction false} BlocksFrom(events: seq<TraceEvent>, start: nat, blocks: seq<seq<TraceEvent>>)
    returns (ranges: seq<Range>)
    requires start <= |events| && events[start..] == Concat(blocks)
    requires forall k | 0 <= k < |blocks| :: IsBlock(blocks[k])
    ensures Whole(events, start, ranges) && PartsAre(events, ranges, blocks)
    decreases |blocks|
  {
    if blocks == [] {
      ranges := [];
    } else {
      var r := BlockIsNext(events, start, blocks[0], Concat(blocks[1..]));
      var rest := BlocksFrom(events, r.exit + 1, blocks[1..]);
      ranges := [r] + rest;
      BlockFirst(events, start, r, rest, blocks);
    }
  }

  lemma BlockFirst(events: seq<TraceEvent>, start: nat, r: Range, rest: seq<Range>, blocks: seq<seq<TraceEvent>>)
    requires IsNext(events, start, r) && IsStatement(events, r) && Whole(events, r.exit + 1, rest)
    requires blocks != [] && Part(events, r) == blocks[0] && PartsAre(events, rest, blocks[1..])
    ensures Whole(events, start, [r] + rest) && PartsAre(events, [r] + rest, blocks)
  {
    assert ([r] + rest)[1..] == rest;
    assert forall k | 1 <= k < |blocks| :: blocks[k] == blocks[1..][k - 1];
  }

  lemma BlockIsNext(events: seq<TraceEvent>, start: nat, block: seq<TraceEvent>, rest: seq<TraceEvent>)
    returns (r: Range)
    requires start <= |events| && events[start..] == block + rest && IsBlock(block)
    ensures IsNext(events, start, r) && Part(events, r) == block && events[r.exit + 1..] == rest
  {
    r := Range(start, start + |block| - 1);
    forall k | 0 <= k < |block| ensures events[start + k] == block[k] {
      assert events[start..][k] == block[k];
    }
    assert events[start + 0] == block[0] && events[start + (|block| - 1)] == block[|block| - 1];
    forall k | r.entry < k < r.exit ensures !IsExit(events, k, events[r.entry].methodName) {
      assert events[start + (k - start)] == block[k - start];
      assert !IsExit(block, k - start, block[0].methodName);
    }
    assert Part(events, r) == block;
    forall k | 0 <= k < |rest| ensures events[r.exit + 1 + k] == rest[k] {
      assert events[start..][|block| + k] == rest[k];
    }
    assert |events[start..]| == |block| + |rest|;
  }

  // ---------- the objects ----------

  class SqlWrapperFactory {
    var events: seq<TraceEvent>

    constructor ()
      ensures events == []
    {
      events := [];
    }

    method Add(event: TraceEvent)
      modifies this
      ensures events == old(events) + [event]
    {
      events := events + [event];
    }

    /** The statement without its sequence number, which the request hands out. */
    method CreateSqlWrapper() returns (made: Option<Statement>, error: Option<Failure>)
      requires |events| >= 2
      ensures made.Some? <==> WellFormed(events)
      ensures made.Some? ==> made.value == StatementOf(events, -1) && IsMadeOf(made.value, events)
      ensures error.Some? <==> made.None?
      ensures error == Some(NotAnEntry) <==> events[0].eventType != ENTRY
      ensures error == Some(NotAnArg) <==> events[0].eventType == ENTRY && events[1].eventType != ARG
      ensures error == Some(NotAnExit) <==>
        events[0].eventType == ENTRY && events[1].eventType == ARG && events[|events| - 1].eventType != EXIT
      ensures error == Some(ArgClassDiffers) ==> events[0].className != events[1].className
      ensures error == Some(ExitClassDiffers) ==> events[1].className != events[|events| - 1].className
      ensures error != Some(NoEntry) && error != Some(NoExit)
    {
      made := None;
      var entryEvent := events[0];
      if entryEvent.eventType != ENTRY {
        return None, Some(NotAnEntry);
      }
      var sqlEvent := events[1];
      if sqlEvent.eventType != ARG {
        return None, Some(NotAnArg);
      }
      var exitEvent := events[|events| - 1];
      if exitEvent.eventType != EXIT {
        return None, Some(NotAnExit);
      }
      var dsw := Statement(-1, "", -1, -1, -1, []);
      dsw := dsw.(sqlText := OneLine(sqlEvent.value));
      dsw := dsw.(entryTime := entryEvent.agentTime);
      dsw := dsw.(exitTime := exitEvent.agentTime);
      dsw := dsw.(clientTime := exitEvent.clientTime);
      dsw := dsw.(stackTrace := exitEvent.stackTrace);
      if entryEvent.className != sqlEvent.className {
        return None, Some(ArgClassDiffers);
      }
      if sqlEvent.className != exitEvent.className {
        return None, Some(ExitClassDiffers);
      }
      return Some(dsw), None;
    }
  }

  class RequestWrapper {
    var sqlStatements: seq<Statement>
    var sequence: int

    constructor ()
      ensures sqlStatements == [] && sequence == 0
    {
      sqlStatements, sequence := [], 0;
    }

    method AddSqlWrapper(val: Statement)
      modifies this
      ensures sqlStatements == old(sqlStatements) + [val.(sequence := old(sequence))] && sequence == old(sequence) + 1
    {
      sqlStatements := sqlStatements + [val.(sequence := sequence)];
      sequence := sequence + 1;
    }

    static method IndexOfNext(eventType: EventType, events: seq<TraceEvent>, current: nat) returns (rc: Option<nat>)
      requires current <= |events|
      ensures rc.Some? ==> current <= rc.value < |events| && events[rc.value].eventType == eventType
      ensures forall k | current <= k < (if rc.Some? then rc.value else |events|) :: events[k].eventType != eventType
    {
      rc := None;
      for i := current to |events|
        invariant rc.None? && forall k | current <= k < i :: events[k].eventType != eventType
      {
        if events[i].eventType == eventType {
          rc := Some(i);
          break;
        }
      }
    }

    static method IndexOfNextExit(events: seq<TraceEvent>, first: nat, methodName: string) returns (rc: Option<nat>)
      requires first <= |events|
      ensures rc.Some? ==> first <= rc.value < |events| && IsExit(events, rc.value, methodName)
      ensures forall k | first <= k < (if rc.Some? then rc.value else |events|) :: !IsExit(events, k, methodName)
    {
      rc := None;
      for i := first to |events|
        invariant rc.None? && forall k | first <= k < i :: !IsExit(events, k, methodName)
      {
        if events[i].eventType == EXIT && events[i].methodName == methodName {
          rc := Some(i);
          break;
        }
      }
    }

    /** The statements of `ranges` have been added, numbered from `first` on. */
    ghost predicate Loaded(events: seq<TraceEvent>, ranges: seq<Range>, before: seq<Statement>, first: int)
      reads this
    {
      AllStatements(events, ranges) && sqlStatements == before + StatementsOf(events, ranges, first) &&
      sequence == first + |ranges|
    }

    method AddNext(events: seq<TraceEvent>, ghost ranges: seq<Range>, ghost r: Range, made: Statement,
                   ghost before: seq<Statement>, ghost first: int)
      requires Loaded(events, ranges, before, first)
      requires IsStatement(events, r) && made == StatementOf(Part(events, r), -1)
      modifies this
      ensures Loaded(events, ranges + [r], before, first)
    {
      StatementMore(events, ranges, r, first);
      AddSqlWrapper(made);
    }

    /** Succeeds exactly if the whole list can be cut; `ranges` are those of the statements added. */
    method LoadEvents(allEvents: seq<TraceEvent>) returns (error: Option<Failure>, ghost ranges: seq<Range>)
      modifies this
      ensures Cut(allEvents, 0, ranges) && Loaded(allEvents, ranges, old(sqlStatements), old(sequence))
      ensures error.None? ==> Whole(allEvents, 0, ranges)
      ensures error.Some? ==> forall full :: !Whole(allEvents, 0, full)
      ensures error == Some(NoEntry) <==> error.Some? && NoEntryFrom(allEvents, End(0, ranges))
      ensures error == Some(NoExit) <==>
        error.Some? && !NoEntryFrom(allEvents, End(0, ranges)) && forall q :: !IsNext(allEvents, End(0, ranges), q)
    {
      var i := 0;
      error, ranges := None, [];
      while i < |allEvents|
        invariant 0 <= i <= |allEvents| && i == End(0, ranges) && error.None?
        invariant Cut(allEvents, 0, ranges) && Loaded(allEvents, ranges, old(sqlStatements), old(sequence))
      {
        var made, next;
        ghost var r;
        made, error, next, r := NextStatement(allEvents, i);
        if made.None? {
          NoWayAtAll(allEvents, ranges);
          return;
        }
        CutMore(allEvents, 0, ranges, r);
        AddNext(allEvents, ranges, r, made.value, old(sqlStatements), old(sequence));
        ranges := ranges + [r];
        i := next;
      }
    }

    static method NextStatement(events: seq<TraceEvent>, start: nat)
      returns (made: Option<Statement>, error: Option<Failure>, next: nat, ghost r: Range)
      requires start < |events|
      ensures made.Some? ==>
        IsNext(events, start, r) && next == r.exit + 1 && error.None? &&
        IsStatement(events, r) && made.value == StatementOf(Part(events, r), -1)
      ensures made.None? ==>
        error.Some? && forall q | IsNext(events, start, q) :: !IsStatement(events, q)
      ensures error == Some(NoEntry) <==> NoEntryFrom(events, start)
      ensures error == Some(NoExit) <==> !NoEntryFrom(events, start) && forall q :: !IsNext(events, start, q)
    {
      made, next, r := None, 0, Range(0, 0);
      var firstEntry := IndexOfNext(ENTRY, events, start);
      if firstEntry.None? {
        return None, Some(NoEntry), 0, r;
      }
      var firstExit := IndexOfNextExit(events, firstEntry.value, events[firstEntry.value].methodName);
      if firstExit.None? {
        return None, Some(NoExit), 0, r;
      }
      r := Range(firstEntry.value, firstExit.value);
      assert IsNext(events, start, r);
      var factory := new SqlWrapperFactory();
      var j := firstEntry.value;
      while j <= firstExit.value
        invariant firstEntry.value <= j <= firstExit.value + 1
        invariant fresh(factory) && factory.events == events[firstEntry.value..j]
      {
        factory.Add(events[j]);
        j := j + 1;
      }
      made, error := factory.CreateSqlWrapper();
      next := firstExit.value + 1;
      forall q | IsNext(events, start, q) ensures q == r {
        NextIsUnique(events, start, q, r);
      }
    }
  }

  lemma StatementMore(events: seq<TraceEvent>, ranges: seq<Range>, r: Range, first: int)
    requires AllStatements(events, ranges) && IsStatement(events, r)
    ensures AllStatements(events, ranges + [r])
    ensures StatementsOf(events, ranges + [r], first) ==
      StatementsOf(events, ranges, first) + [StatementOf(Part(events, r), -1).(sequence := first + |ranges|)]
  {
    forall k | 0 <= k < |ranges + [r]| ensures IsStatement(events, (ranges + [r])[k]) {
      assert k < |ranges| ==> IsStatement(events, ranges[k]);
    }
  }
}
