/**
 The event logger's filters: a table of blocked event IDs, zero marking a free entry, and a
 switch for each severity.
 */
module EventFilters {
  const TELEM_ID_FILTER_SIZE: nat := 25

  datatype Severity = FATAL | WARNING_HI | WARNING_LO | COMMAND | ACTIVITY_HI | ACTIVITY_LO | DIAGNOSTIC

  datatype Response = OK | VALIDATION_ERROR | EXECUTION_ERROR

  /** The argument of a filter command; anything else than the two proper values is refused. */
  datatype Switch = ENABLED | DISABLED | BadSwitch

  // ---------------------------------------------------------------------------
  // Tables as sets
  // ---------------------------------------------------------------------------

  /** The IDs in a table. */
  ghost function Ids(table: seq<nat>): set<nat> {
    if table == [] then {}
    else
      var rest, id := Ids(table[..|table| - 1]), table[|table| - 1];
      if id == 0 then rest else rest + {id}
  }

  ghost predicate Distinct(table: seq<nat>) {
    forall j: nat, k: nat | j < k < |table| && table[j] != 0 :: table[j] != table[k]
  }

  lemma {:induction false} IdsAre(table: seq<nat>, id: nat)
    ensures id in Ids(table) <==> id != 0 && id in table
  {
    if table == [] {
    } else {
      assert table == table[..|table| - 1] + [table[|table| - 1]];
      IdsAre(table[..|table| - 1], id);
    }
  }

  /** A table without repeated IDs has as many IDs as entries exactly when it has no free entry. */
  lemma {:induction false} FullIff(table: seq<nat>)
    requires Distinct(table)
    ensures |Ids(table)| <= |table|
    ensures |Ids(table)| == |table| <==> 0 !in table
  {
    if table == [] {
    } else {
      var init, id := table[..|table| - 1], table[|table| - 1];
      assert table == init + [id];
      FullIff(init);
      IdsAre(init, id);
    }
  }

  lemma Fill(table: seq<nat>, entry: nat, id: nat)
    requires entry < |table| && table[entry] == 0 && id !in table && Distinct(table)
    ensures Distinct(table[entry := id]) && Ids(table[entry := id]) == Ids(table) + {id}
  {
    forall x: nat
      ensures x in Ids(table[entry := id]) <==> x in Ids(table) + {id}
    {
      IdsAre(table, x);
      IdsAre(table[entry := id], x);
      if x in table {
        var k: nat :| k < |table| && table[k] == x;
        assert x != 0 ==> table[entry := id][k] == x;
      }
      assert table[entry := id][entry] == id;
    }
  }

  lemma Clear(table: seq<nat>, entry: nat)
    requires entry < |table| && Distinct(table)
    ensures Distinct(table[entry := 0]) && Ids(table[entry := 0]) == Ids(table) - {table[entry]}
  {
    forall x: nat
      ensures x in Ids(table[entry := 0]) <==> x in Ids(table) - {table[entry]}
    {
      IdsAre(table, x);
      IdsAre(table[entry := 0], x);
      if x in table {
        var k: nat :| k < |table| && table[k] == x;
        assert k != entry ==> table[entry := 0][k] == x;
      }
      if x in table[entry := 0] {
        var k: nat :| k < |table| && table[entry := 0][k] == x;
        assert x != 0 ==> k != entry && table[k] == x;
      }
    }
  }

  lemma {:induction false} NoIds(table: seq<nat>)
    requires forall k: nat | k < |table| :: table[k] == 0
    ensures Ids(table) == {}
  {
    if table == [] {
    } else {
      NoIds(table[..|table| - 1]);
    }
  }

  // ---------------------------------------------------------------------------
  // The abstract filter
  // ---------------------------------------------------------------------------

  /** The response to an ID command, for a set of blocked IDs. */
  ghost function Responds(blocked: set<nat>, id: nat, switch: Switch): Response {
    match switch
    case BadSwitch => VALIDATION_ERROR
    case ENABLED => if id in blocked || |blocked| < TELEM_ID_FILTER_SIZE then OK else EXECUTION_ERROR
    case DISABLED =>
      if id in blocked || (id == 0 && |blocked| < TELEM_ID_FILTER_SIZE) then OK else EXECUTION_ERROR
  }

  /** The blocked IDs after an ID command; the reserved ID zero is never among them. */
  ghost function Blocks(blocked: set<nat>, id: nat, switch: Switch): set<nat> {
    if Responds(blocked, id, switch) != OK || id == 0 then blocked
    else if switch.ENABLED? then blocked + {id}
    else blocked - {id}
  }

  class ActiveLogger {
    const filteredIDs: array<nat>
    var filterState: map<Severity, bool>

    ghost var run: seq<IdCommand>      // all ID commands so far

    ghost predicate InOrder()
      reads this, filteredIDs
    {
      && filteredIDs.Length == TELEM_ID_FILTER_SIZE && Distinct(filteredIDs[..])
      && forall s: Severity | s != FATAL :: s in filterState
    }

    /** The table is in order, and holds what the ID commands so far have blocked. */
    ghost predicate Valid()
      reads this, filteredIDs
    {
      InOrder() && Blocked() == BlockedAfter(run)
    }

    ghost function Blocked(): set<nat>
      reads this, filteredIDs
    {
      Ids(filteredIDs[..])
    }

    constructor Create()
      ensures Valid() && fresh(filteredIDs) && run == []
      ensures forall s: Severity | s != FATAL :: filterState[s] <==> s != DIAGNOSTIC
    {
      filteredIDs := new nat[TELEM_ID_FILTER_SIZE](_ => 0);
      run := [];
      filterState := map[WARNING_HI := true, WARNING_LO := true, COMMAND := true,
                         ACTIVITY_HI := true, ACTIVITY_LO := true, DIAGNOSTIC := false];
      new;
      NoIds(filteredIDs[..]);
    }

    /** The first entry with this content, or the table's size. */
    method Find(id: nat) returns (entry: nat)
      ensures entry <= filteredIDs.Length
      ensures entry < filteredIDs.Length ==> filteredIDs[entry] == id
      ensures entry == filteredIDs.Length <==> id !in filteredIDs[..]
    {
      entry := 0;
      while entry < filteredIDs.Length
        invariant entry <= filteredIDs.Length
        invariant forall k: nat | k < entry :: filteredIDs[k] != id
      {
        if filteredIDs[entry] == id {
          return;
        }
        entry := entry + 1;
      }
    }

    method AddId(id: nat) returns (response: Response)
      requires InOrder()
      modifies filteredIDs
      ensures InOrder()
      ensures response == Responds(old(Blocked()), id, ENABLED) && Blocked() == Blocks(old(Blocked()), id, ENABLED)
    {
      ghost var table := filteredIDs[..];
      IdsAre(table, id);
      FullIff(table);
      var entry := Find(id);
      if entry < filteredIDs.Length {
        return OK;
      }
      entry := Find(0);
      if entry < filteredIDs.Length {
        Fill(table, entry, id);
        filteredIDs[entry] := id;
        assert filteredIDs[..] == table[entry := id];
        return OK;
      }
      return EXECUTION_ERROR;
    }

    method RemoveId(id: nat) returns (response: Response)
      requires InOrder()
      modifies filteredIDs
      ensures InOrder()
      ensures response == Responds(old(Blocked()), id, DISABLED) && Blocked() == Blocks(old(Blocked()), id, DISABLED)
    {
      ghost var table := filteredIDs[..];
      IdsAre(table, id);
      FullIff(table);
      var entry := Find(id);
      if entry < filteredIDs.Length {
        Clear(table, entry);
        filteredIDs[entry] := 0;
        assert filteredIDs[..] == table[entry := 0];
        return OK;
      }
      return EXECUTION_ERROR;
    }

    method SetIdFilter(id: nat, idEnabled: Switch) returns (response: Response)
      requires Valid()
      modifies filteredIDs, `run
      ensures Valid() && run == old(run) + [IdCommand(id, idEnabled)]
      ensures response == Responds(old(Blocked()), id, idEnabled) && Blocked() == Blocks(old(Blocked()), id, idEnabled)
      ensures response == VALIDATION_ERROR <==> idEnabled == BadSwitch
      ensures idEnabled == ENABLED ==>
                (response == OK <==> (id != 0 && LatestBlocks(old(run), id)) || |old(Blocked())| < 25)
      ensures idEnabled == DISABLED && id != 0 ==> (response == OK <==> LatestBlocks(old(run), id))
    {
      ResponsesAre(run, id, idEnabled);
      ghost var longer := run + [IdCommand(id, idEnabled)];
      assert longer[..|run|] == run;
      match idEnabled {
        case BadSwitch => response := VALIDATION_ERROR;
        case ENABLED => response := AddId(id);
        case DISABLED => response := RemoveId(id);
      }
      run := longer;
    }

    method SetEventFilter(level: Severity, filterEnable: Switch) returns (response: Response)
      requires Valid()
      modifies `filterState
      ensures Valid()
      ensures response == if level == FATAL || filterEnable == BadSwitch then VALIDATION_ERROR else OK
      ensures filterState == if response != OK then old(filterState)
                             else old(filterState)[level := filterEnable == ENABLED]
    {
      if level == FATAL || filterEnable == BadSwitch {
        return VALIDATION_ERROR;
      }
      filterState := filterState[level := filterEnable == ENABLED];
      return OK;
    }

    /** Whether an event goes on to the logger; the source asserts that its ID is not the reserved one. */
    method LogRecv(id: nat, severity: Severity) returns (forwarded: bool)
      requires Valid() && id != 0
      ensures forwarded <==> severity == FATAL || (filterState[severity] && id !in Blocked())
      ensures forwarded <==> severity == FATAL || (filterState[severity] && !LatestBlocks(run, id))
    {
      LatestCommandDecides(run, id);
      if severity != FATAL && !filterState[severity] {
        return false;
      }
      for entry := 0 to filteredIDs.Length
        invariant severity != FATAL ==> forall k: nat | k < entry :: filteredIDs[k] != id
      {
        if filteredIDs[entry] == id && severity != FATAL {
          IdsAre(filteredIDs[..], id);
          return false;
        }
      }
      IdsAre(filteredIDs[..], id);
      return true;
    }
  }

  // ---------------------------------------------------------------------------
  // Whole runs of ID commands
  // ---------------------------------------------------------------------------

  datatype IdCommand = IdCommand(id: nat, switch: Switch)

  ghost function BlockedAfter(run: seq<IdCommand>): set<nat> {
    if run == [] then {}
    else var c := run[|run| - 1]; Blocks(BlockedAfter(run[..|run| - 1]), c.id, c.switch)
  }

  ghost predicate LastAccepted(run: seq<IdCommand>)
    requires run != []
  {
    var c := run[|run| - 1];
    Responds(BlockedAfter(run[..|run| - 1]), c.id, c.switch) == OK
  }

  /** What the latest accepted command on this ID asked for; an ID without one is not blocked. */
  ghost predicate LatestBlocks(run: seq<IdCommand>, id: nat) {
    run != [] &&
    if run[|run| - 1].id == id && LastAccepted(run) then run[|run| - 1].switch.ENABLED?
    else LatestBlocks(run[..|run| - 1], id)
  }

  /** An ID is blocked exactly if the latest accepted command on it says so; never too many are, and never zero. */
  lemma {:induction false} LatestCommandDecides(run: seq<IdCommand>, id: nat)
    ensures id in BlockedAfter(run) <==> id != 0 && LatestBlocks(run, id)
    ensures |BlockedAfter(run)| <= 25
  {
    if run == [] {
    } else {
      LatestCommandDecides(run[..|run| - 1], id);
    }
  }

  /**
   The answer to a command after any run.  Blocking is refused only for an ID that is not blocked yet and
   for want of a free entry; unblocking only for an ID that is not blocked; a bad switch always.  The
   reserved ID zero is found by either command as long as there is a free entry.
   */
  lemma ResponsesAre(run: seq<IdCommand>, id: nat, switch: Switch)
    ensures |BlockedAfter(run)| <= 25
    ensures var full := |BlockedAfter(run)| == 25;
            Responds(BlockedAfter(run), id, switch) ==
            match switch
            case BadSwitch => VALIDATION_ERROR
            case ENABLED => if full && (id == 0 || !LatestBlocks(run, id)) then EXECUTION_ERROR else OK
            case DISABLED =>
              if id == 0 then if full then EXECUTION_ERROR else OK
              else if LatestBlocks(run, id) then OK else EXECUTION_ERROR
  {
    LatestCommandDecides(run, id);
  }

  /** A new ID is refused exactly when the table is full. */
  lemma RefusedIffFull(run: seq<IdCommand>, id: nat)
    requires id !in BlockedAfter(run)
    ensures !LastAccepted(run + [IdCommand(id, ENABLED)]) <==> |BlockedAfter(run)| == 25
  {
    LatestCommandDecides(run, id);
    assert (run + [IdCommand(id, ENABLED)])[..|run|] == run;
  }
}
