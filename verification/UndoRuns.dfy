/**
 Whole runs of the log: user changes, undos and redos with the watcher's
 operations anywhere between them. The selections of `Undo` behave as the two
 stacks of an editor.
 */
module UndoRuns {
  import opened Prelude
  import opened Undo

  /** What happens to a repository. A press appends one revert of the operation
      the selection names, written as the carried operation. */
  datatype Event =
    | Change(op: LogOp)
    | Watch(op: LogOp)
    | PressUndo(op: LogOp)
    | PressRedo(op: LogOp)

  /** An editor's stacks of changes, the top last. */
  datatype Editor = Editor(undo: seq<int>, redo: seq<int>)

  ghost function First(log: seq<LogOp>): Option<int> {
    if log == [] then None else Some(log[0].id)
  }

  ghost function Reverting(op: LogOp, selected: Option<LogOp>, log: seq<LogOp>): seq<LogOp> {
    if selected.None? then log else log + [op.(revertsOpId := Some(selected.value.id))]
  }

  ghost function Append(log: seq<LogOp>, ev: Event): seq<LogOp> {
    match ev
    case Change(op) => log + [op]
    case Watch(op) => log + [op]
    case PressUndo(op) => Reverting(op, UndoOp(log, First(log)), log)
    case PressRedo(op) => Reverting(op, RedoOp(log), log)
  }

  /** The operation is newer than the log and is what the event says. */
  ghost predicate Admissible(log: seq<LogOp>, ev: Event) {
    && (forall o :: o in log ==> o.id < ev.op.id)
    && match ev
       case Change(op) => UsersChange(op)
       case Watch(op) => op.revertsOpId.None? && !UsersChange(op)
       case PressUndo(op) => op.origin != Some("watcher") && op.opType != "unknown"
       case PressRedo(op) => op.origin != Some("watcher") && op.opType != "unknown"
  }

  function Press(e: Editor, ev: Event): Editor {
    match ev
    case Change(op) => Editor(e.undo + [op.id], [])
    case Watch(_) => e
    case PressUndo(_) =>
      if e.undo == [] then e
      else Editor(e.undo[..|e.undo| - 1], e.redo + [e.undo[|e.undo| - 1]])
    case PressRedo(_) =>
      if e.redo == [] then e
      else Editor(e.undo + [e.redo[|e.redo| - 1]], e.redo[..|e.redo| - 1])
  }

  /** The log after `evs`, begun by the operation the repository's creation wrote. */
  ghost function Log(root: LogOp, evs: seq<Event>): seq<LogOp> {
    if evs == [] then [root] else Append(Log(root, evs[..|evs| - 1]), evs[|evs| - 1])
  }

  /** The stacks after `evs`: nothing here reads the log. */
  function Stacks(evs: seq<Event>): Editor {
    if evs == [] then Editor([], []) else Press(Stacks(evs[..|evs| - 1]), evs[|evs| - 1])
  }

  ghost predicate Runs(root: LogOp, evs: seq<Event>) {
    evs != [] ==>
      && Runs(root, evs[..|evs| - 1])
      && Admissible(Log(root, evs[..|evs| - 1]), evs[|evs| - 1])
  }

  /** The changes of the log that stand. */
  ghost function Standing(log: seq<LogOp>): set<int> {
    set op | op in log && UsersChange(op) && op.id !in Undone(log) && Some(op.id) != First(log) :: op.id
  }

  // ── The invariant ────────────────────────────────────────────────────────

  ghost predicate Ascending(s: seq<int>) {
    forall i, j :: 0 <= i < j < |s| ==> s[i] < s[j]
  }

  /** `u` is an undo standing after every change of the log. */
  ghost predicate OpenUndo(log: seq<LogOp>, undone: set<int>, u: LogOp) {
    && u in log && u.revertsOpId.Some? && u.revertsOpId.value !in RevertIds(log) && u.id !in undone
    && forall c :: c in log && UsersChange(c) ==> c.id < u.id
  }

  /** The log's operation `via` is a revert of `change`. */
  ghost predicate Undid(log: seq<LogOp>, via: int, change: int) {
    exists u :: u in log && u.id == via && u.revertsOpId == Some(change)
  }

  /** `id` names a user's change past the log's first operation. */
  ghost predicate HoldsChange(log: seq<LogOp>, id: int) {
    Some(id) != First(log) && exists c :: c in log && c.id == id && UsersChange(c)
  }

  ghost predicate ListsOpenUndos(log: seq<LogOp>, undone: set<int>, vias: seq<int>) {
    forall u :: u in log ==> (OpenUndo(log, undone, u) <==> u.id in vias)
  }

  /** `via` is the one revert of `change` still standing. */
  ghost predicate OnlyVia(log: seq<LogOp>, undone: set<int>, change: int, via: int) {
    forall r :: r in log && r.revertsOpId == Some(change) && r.id !in undone ==> r.id == via
  }

  /** `vias` lists the open undos, oldest first; the redo stack is what they undid. */
  ghost predicate RedoTracks(log: seq<LogOp>, undone: set<int>, redo: seq<int>, vias: seq<int>) {
    && |vias| == |redo| && Ascending(vias)
    && ListsOpenUndos(log, undone, vias)
    && (forall i :: 0 <= i < |redo| ==>
          && Undid(log, vias[i], redo[i])
          && OnlyVia(log, undone, redo[i], vias[i])
          && HoldsChange(log, redo[i]))
  }

  ghost predicate StackOrder(e: Editor) {
    && Ascending(e.undo)
    && (forall i, j :: 0 <= i < j < |e.redo| ==> e.redo[i] > e.redo[j])
    && (forall i, j :: 0 <= i < |e.undo| && 0 <= j < |e.redo| ==> e.undo[i] < e.redo[j])
  }

  ghost predicate LogShape(log: seq<LogOp>) {
    && log != [] && LogLike(log)
    && log[0].revertsOpId.None?
    && (forall op :: op in log ==> log[0].id <= op.id)
    && (forall op :: op in log && op.revertsOpId.Some? ==> !IsDaemons(op))
    && (forall op :: op in log ==> op.revertsOpId != Some(log[0].id))
  }

  ghost predicate Tracks(log: seq<LogOp>, e: Editor, vias: seq<int>) {
    && LogShape(log) && StackOrder(e)
    && (forall id :: id in e.undo <==> id in Standing(log))
    && RedoTracks(log, Undone(log), e.redo, vias)
  }

  // ── What each kind of operation does to the undone set ───────────────────

  lemma LogGrows(log: seq<LogOp>, op: LogOp)
    requires LogShape(log) && forall o :: o in log ==> o.id < op.id
    requires op.revertsOpId.Some? ==>
      !IsDaemons(op) && op.revertsOpId.value < op.id && op.revertsOpId.value != log[0].id
    ensures LogShape(log + [op])
    ensures First(log + [op]) == First(log)
    ensures forall o :: o in log + [op] <==> o in log || o == op
  {
    assert forall o :: o in log + [op] <==> o in log || o == op;
    assert log[0] in log;
  }

  lemma UndoneAfterPlain(log: seq<LogOp>, op: LogOp)
    requires LogShape(log) && (forall o :: o in log ==> o.id < op.id) && op.revertsOpId.None?
    ensures Undone(log + [op]) == Undone(log)
  {
    LogGrows(log, op);
    PassSettles(log);
    var log', u := log + [op], Undone(log);
    forall id ensures HeldBack(log', u, id) <==> HeldBack(log, u, id) {
      if HeldBack(log, u, id) {
        var r :| r in log && r.revertsOpId == Some(id) && r.id !in u;
        assert r in log';
      }
    }
    assert !HeldBack(log, u, op.id);
    forall id | id in u ensures exists o :: o in log' && o.id == id {
      var o :| o in log && o.id == id;
      assert o in log';
    }
    SettledUnique(log', u);
  }

  /** An undo changes nothing about what is reverted by others. */
  lemma HeldBackAfterUndo(log: seq<LogOp>, u: set<int>, c: LogOp, op: LogOp, id: int)
    requires LogLike(log) && c in log && c.revertsOpId.None? && op.revertsOpId == Some(c.id) && id != c.id
    ensures HeldBack(log, u, id) <==> HeldBack(log + [op], u + {c.id}, id)
  {
    if HeldBack(log, u, id) {
      var r :| r in log && r.revertsOpId == Some(id) && r.id !in u;
      assert r.id != c.id;
      assert r in log + [op];
    }
    if HeldBack(log + [op], u + {c.id}, id) {
      var r :| r in log + [op] && r.revertsOpId == Some(id) && r.id !in u + {c.id};
      assert r in log;
    }
  }

  lemma UndoneAfterUndo(log: seq<LogOp>, c: LogOp, op: LogOp)
    requires LogShape(log) && (forall o :: o in log ==> o.id < op.id)
    requires c in log && UsersChange(c) && c.id != log[0].id
    requires op.revertsOpId == Some(c.id) && !IsDaemons(op)
    ensures Undone(log + [op]) == Undone(log) + {c.id}
  {
    LogGrows(log, op);
    PassSettles(log);
    var log', u := log + [op], Undone(log);
    var u' := u + {c.id};
    assert op in log' && op.id !in u';
    forall o | o in log' ensures o.id in u' <==> HeldBack(log', u', o.id) {
      if o.id != c.id {
        HeldBackAfterUndo(log, u, c, op, o.id);
      }
    }
    SettledUnique(log', u');
  }

  /** A redo changes nothing about what is reverted by others. */
  lemma HeldBackAsBefore(log: seq<LogOp>, u: set<int>, c: LogOp, via: LogOp, op: LogOp, id: int)
    requires c.revertsOpId.None? && via.revertsOpId == Some(c.id) && op.revertsOpId == Some(via.id)
    requires LogLike(log) && c in log && via in log && op.id !in u && id != c.id && id != via.id
    ensures HeldBack(log, u, id) <==> HeldBack(log + [op], u + {via.id} - {c.id}, id)
  {
    var log', u' := log + [op], u + {via.id} - {c.id};
    if HeldBack(log, u, id) {
      var r :| r in log && r.revertsOpId == Some(id) && r.id !in u;
      assert r != via;
      assert r in log' && r.id !in u';
    }
    if HeldBack(log', u', id) {
      var r :| r in log' && r.revertsOpId == Some(id) && r.id !in u';
      assert r in log && r.id != c.id;
      assert r.id !in u;
    }
  }

  /** With its only undo reverted, nothing holds a change back. */
  lemma ChangeStandsAgain(log: seq<LogOp>, u: set<int>, c: LogOp, via: LogOp, op: LogOp)
    requires LogLike(log) && c in log && c.revertsOpId.None? && via in log && via.revertsOpId == Some(c.id)
    requires forall r :: r in log && r.revertsOpId == Some(c.id) && r.id !in u ==> r == via
    requires op.revertsOpId == Some(via.id)
    ensures !HeldBack(log + [op], u + {via.id} - {c.id}, c.id)
  {
    assert forall r :: r in log + [op] <==> r in log || r == op;
  }

  lemma UndoneAfterRedo(log: seq<LogOp>, c: LogOp, via: LogOp, op: LogOp)
    requires LogShape(log) && (forall o :: o in log ==> o.id < op.id)
    requires c in log && UsersChange(c) && via in log && via.revertsOpId == Some(c.id) && via.id !in Undone(log)
    requires forall r :: r in log && r.revertsOpId == Some(c.id) && r.id !in Undone(log) ==> r == via
    requires op.revertsOpId == Some(via.id) && !IsDaemons(op)
    ensures Undone(log + [op]) == Undone(log) + {via.id} - {c.id}
  {
    assert via.id != log[0].id;
    LogGrows(log, op);
    PassSettles(log);
    var log', u := log + [op], Undone(log);
    var u' := u + {via.id} - {c.id};
    assert op in log' && op.id !in u';
    forall o | o in log' ensures o.id in u' <==> HeldBack(log', u', o.id) {
      if o.id != c.id && o.id != via.id && o in log {
        HeldBackAsBefore(log, u, c, via, op, o.id);
      } else if o.id == c.id {
        ChangeStandsAgain(log, u, c, via, op);
      }
    }
    SettledUnique(log', u');
  }

  // ── The selections are the tops of the stacks ────────────────────────────

  lemma UndoSelectsTop(log: seq<LogOp>, e: Editor, vias: seq<int>)
    requires Tracks(log, e, vias)
    ensures e.undo == [] <==> UndoOp(log, First(log)).None?
    ensures e.undo != [] ==>
      var c := UndoOp(log, First(log)).value;
      c in log && UsersChange(c) && c.id == e.undo[|e.undo| - 1] && c.id != log[0].id && c.id !in Undone(log)
  {
    assert log[0] in log;
    forall y | y in log && Takes(y, Undone(log)) && y.id != log[0].id ensures y.id in e.undo {
      assert y.id in Standing(log);
    }
    if e.undo == [] {
      UndoDecided(log, First(log), log[0]);
    } else {
      var top := e.undo[|e.undo| - 1];
      assert top in Standing(log);
      var c :| c in log && Takes(c, Undone(log)) && Some(c.id) != First(log) && c.id == top;
      UndoDecided(log, First(log), c);
    }
  }

  lemma {:induction false} NewestChange(log: seq<LogOp>, c: LogOp) returns (b: LogOp)
    requires c in log && UsersChange(c)
    ensures b in log && UsersChange(b)
    ensures forall o :: o in log && UsersChange(o) ==> o.id <= b.id
    decreases MaxId(log) - c.id
  {
    if d :| d in log && UsersChange(d) && d.id > c.id {
      b := NewestChange(log, d);
    } else {
      b := c;
    }
  }

  /** Past the newest change the redo scan steps over everything but open undos. */
  lemma OnlyOpenUndosStop(log: seq<LogOp>, y: LogOp)
    requires LogShape(log) && y in log
    requires forall c :: c in log && UsersChange(c) ==> c.id < y.id
    ensures StepsOver(y, Undone(log), RevertIds(log)) || OpenUndo(log, Undone(log), y)
  {
  }

  lemma RedoSelectsTop(log: seq<LogOp>, e: Editor, vias: seq<int>)
    requires Tracks(log, e, vias)
    ensures e.redo == [] <==> RedoOp(log).None?
    ensures e.redo != [] ==>
      var via := RedoOp(log).value;
      via in log && via.id == vias[|vias| - 1] && via.revertsOpId == Some(e.redo[|e.redo| - 1])
  {
    if e.redo != [] {
      RedoFindsTop(log, e, vias);
    } else {
      RedoFindsNone(log, e, vias);
    }
  }

  lemma RedoFindsTop(log: seq<LogOp>, e: Editor, vias: seq<int>)
    requires Tracks(log, e, vias) && e.redo != []
    ensures RedoOp(log).Some?
    ensures
      var via := RedoOp(log).value;
      via in log && via.id == vias[|vias| - 1] && via.revertsOpId == Some(e.redo[|e.redo| - 1])
  {
    var k := |vias| - 1;
    assert Undid(log, vias[k], e.redo[k]);
    var via :| via in log && via.id == vias[k] && via.revertsOpId == Some(e.redo[k]);
    assert OpenUndo(log, Undone(log), via);
    forall y | y in log && y.id > via.id ensures StepsOver(y, Undone(log), RevertIds(log)) {
      OnlyOpenUndosStop(log, y);
      assert y.id !in vias;
    }
    RedoDecided(log, via);
  }

  lemma RedoFindsNone(log: seq<LogOp>, e: Editor, vias: seq<int>)
    requires Tracks(log, e, vias) && e.redo == []
    ensures RedoOp(log).None?
  {
    var u := Undone(log);
    if c :| c in log && UsersChange(c) {
      var b := NewestChange(log, c);
      forall y | y in log && y.id > b.id ensures StepsOver(y, u, RevertIds(log)) {
        OnlyOpenUndosStop(log, y);
      }
      NewestChangeStands(log, e, vias, b);
      RedoDecided(log, b);
    } else {
      forall y | y in log ensures StepsOver(y, u, RevertIds(log)) {
        OnlyOpenUndosStop(log, y);
      }
      NewestFirstSorts(log);
      RedoScanFindsNone(NewestFirst(log), u, RevertIds(log));
    }
  }

  /** With nothing to redo, the newest change stands. */
  lemma NewestChangeStands(log: seq<LogOp>, e: Editor, vias: seq<int>, b: LogOp)
    requires Tracks(log, e, vias) && e.redo == []
    requires b in log && UsersChange(b) && forall o :: o in log && UsersChange(o) ==> o.id <= b.id
    ensures b.id !in Undone(log)
  {
    PassSettles(log);
    assert b.id !in RevertIds(log);
    forall r | r in log && r.revertsOpId == Some(b.id) ensures r.id in Undone(log) {
      assert r.id !in Undone(log) ==> OpenUndo(log, Undone(log), r);
    }
  }

  // ── Every event keeps the invariant ──────────────────────────────────────

  lemma FreshStands(log: seq<LogOp>, id: int)
    requires LogShape(log) && forall o :: o in log ==> o.id < id
    ensures id !in Undone(log)
  {
    PassSettles(log);
    assert id in Undone(log) ==> exists o :: o in log && o.id == id;
  }

  lemma ViasOlder(log: seq<LogOp>, e: Editor, vias: seq<int>, id: int)
    requires Tracks(log, e, vias) && forall o :: o in log ==> o.id < id
    ensures forall i :: 0 <= i < |vias| ==> vias[i] < id
  {
    forall i | 0 <= i < |vias| ensures vias[i] < id {
      assert Undid(log, vias[i], e.redo[i]);
    }
  }

  lemma ChangeTracks(log: seq<LogOp>, e: Editor, vias: seq<int>, op: LogOp)
    requires Tracks(log, e, vias) && Admissible(log, Change(op))
    ensures Tracks(log + [op], Press(e, Change(op)), [])
  {
    LogGrows(log, op);
    UndoneAfterPlain(log, op);
    FreshStands(log, op.id);
    var log' := log + [op];
    assert Standing(log') == Standing(log) + {op.id} by {
      assert log[0] in log;
      assert op in log' && Takes(op, Undone(log'));
    }
    forall i | 0 <= i < |e.undo| ensures e.undo[i] < op.id {
      assert e.undo[i] in e.undo;
      assert e.undo[i] in Standing(log);
    }
    forall u | u in log' ensures !OpenUndo(log', Undone(log'), u) {
      assert op in log' && UsersChange(op);
    }
  }

  lemma WatchTracks(log: seq<LogOp>, e: Editor, vias: seq<int>, op: LogOp)
    requires Tracks(log, e, vias) && Admissible(log, Watch(op))
    ensures Tracks(log + [op], e, vias)
  {
    LogGrows(log, op);
    UndoneAfterPlain(log, op);
    ViasOlder(log, e, vias, op.id);
    var log', u := log + [op], Undone(log);
    assert Standing(log') == Standing(log);
    assert RevertIds(log') == RevertIds(log);
    forall o | o in log' ensures OpenUndo(log', u, o) <==> o.id in vias {
      assert o in log ==> (OpenUndo(log', u, o) <==> OpenUndo(log, u, o));
    }
    forall i | 0 <= i < |e.redo|
      ensures Undid(log', vias[i], e.redo[i]) && OnlyVia(log', u, e.redo[i], vias[i]) && HoldsChange(log', e.redo[i])
    {
      EntryKept(log, log', vias[i], e.redo[i]);
      assert OnlyVia(log, u, e.redo[i], vias[i]);
    }
  }

  /** The undo and the change a redo entry names stay in a longer log. */
  lemma EntryKept(log: seq<LogOp>, log': seq<LogOp>, via: int, change: int)
    requires Undid(log, via, change) && HoldsChange(log, change)
    requires First(log') == First(log) && forall o :: o in log ==> o in log'
    ensures Undid(log', via, change) && HoldsChange(log', change)
  {
    var u :| u in log && u.id == via && u.revertsOpId == Some(change);
    assert u in log';
    var c :| c in log && c.id == change && UsersChange(c);
    assert c in log';
  }

  lemma UndoTracks(log: seq<LogOp>, e: Editor, vias: seq<int>, c: LogOp, op: LogOp)
    requires Tracks(log, e, vias) && e.undo != [] && (forall o :: o in log ==> o.id < op.id)
    requires c in log && UsersChange(c) && c.id == e.undo[|e.undo| - 1] && c.id != log[0].id && c.id !in Undone(log)
    requires op.revertsOpId == Some(c.id) && !IsDaemons(op)
    ensures Tracks(log + [op], Press(e, PressUndo(op)), vias + [op.id])
  {
    LogGrows(log, op);
    UndoneAfterUndo(log, c, op);
    UndoMovesTop(e, op);
    assert Standing(log + [op]) == Standing(log) - {c.id};
    UndoRedoStack(log, e, vias, c, op);
  }

  lemma UndoRedoStack(log: seq<LogOp>, e: Editor, vias: seq<int>, c: LogOp, op: LogOp)
    requires Tracks(log, e, vias) && e.undo != [] && (forall o :: o in log ==> o.id < op.id)
    requires c in log && UsersChange(c) && c.id == e.undo[|e.undo| - 1] && c.id != log[0].id && c.id !in Undone(log)
    requires op.revertsOpId == Some(c.id)
    ensures RedoTracks(log + [op], Undone(log) + {c.id}, e.redo + [c.id], vias + [op.id])
  {
    UndoOpens(log, e, vias, c, op);
    UndoEntries(log, e, vias, c, op);
  }

  lemma UndoMovesTop(e: Editor, op: LogOp)
    requires StackOrder(e) && e.undo != []
    ensures var e', top := Press(e, PressUndo(op)), e.undo[|e.undo| - 1];
      && StackOrder(e') && e'.redo == e.redo + [top]
      && forall id :: id in e'.undo <==> id in e.undo && id != top
  {
    assert e.undo == e.undo[..|e.undo| - 1] + [e.undo[|e.undo| - 1]];
  }

  lemma RedoMovesTop(e: Editor, op: LogOp)
    requires StackOrder(e) && e.redo != []
    ensures var e', top := Press(e, PressRedo(op)), e.redo[|e.redo| - 1];
      && StackOrder(e') && e'.redo == e.redo[..|e.redo| - 1]
      && forall id :: id in e'.undo <==> id in e.undo || id == top
  {
  }

  lemma UndoOpens(log: seq<LogOp>, e: Editor, vias: seq<int>, c: LogOp, op: LogOp)
    requires Tracks(log, e, vias) && (forall o :: o in log ==> o.id < op.id)
    requires c in log && UsersChange(c) && op.revertsOpId == Some(c.id)
    ensures var log', u' := log + [op], Undone(log) + {c.id}; ListsOpenUndos(log', u', vias + [op.id])
    ensures Ascending(vias + [op.id])
  {
    FreshStands(log, op.id);
    ViasOlder(log, e, vias, op.id);
    OpenUndosAfterUndo(log, Undone(log), vias, c, op);
  }

  /** An undo is open and leaves the open ones so. */
  lemma OpenUndosAfterUndo(log: seq<LogOp>, u: set<int>, vias: seq<int>, c: LogOp, op: LogOp)
    requires LogLike(log) && ListsOpenUndos(log, u, vias) && (forall o :: o in log ==> o.id < op.id)
    requires c in log && UsersChange(c) && op.revertsOpId == Some(c.id) && op.id !in u
    requires forall id :: id in vias ==> id < op.id
    ensures ListsOpenUndos(log + [op], u + {c.id}, vias + [op.id])
  {
    var log', u' := log + [op], u + {c.id};
    assert forall o :: o in log' <==> o in log || o == op;
    assert RevertIds(log') == RevertIds(log) + {op.id};
    assert OpenUndo(log', u', op);
    forall o | o in log' ensures OpenUndo(log', u', o) <==> o.id in vias + [op.id] {
      assert o in log ==> (OpenUndo(log', u', o) <==> OpenUndo(log, u, o));
    }
  }

  lemma UndoEntries(log: seq<LogOp>, e: Editor, vias: seq<int>, c: LogOp, op: LogOp)
    requires Tracks(log, e, vias) && (forall o :: o in log ==> o.id < op.id)
    requires c in log && UsersChange(c) && c.id != log[0].id && c.id !in Undone(log) && op.revertsOpId == Some(c.id)
    requires forall i :: 0 <= i < |e.redo| ==> e.redo[i] != c.id
    ensures var log', u' := log + [op], Undone(log) + {c.id}; var redo', vias' := e.redo + [c.id], vias + [op.id];
      forall i :: 0 <= i < |redo'| ==>
        Undid(log', vias'[i], redo'[i]) && OnlyVia(log', u', redo'[i], vias'[i]) && HoldsChange(log', redo'[i])
  {
    var log', u, u' := log + [op], Undone(log), Undone(log) + {c.id};
    var redo', vias' := e.redo + [c.id], vias + [op.id];
    assert forall o :: o in log' <==> o in log || o == op;
    PassSettles(log);
    forall i | 0 <= i < |redo'|
      ensures Undid(log', vias'[i], redo'[i]) && OnlyVia(log', u', redo'[i], vias'[i]) && HoldsChange(log', redo'[i])
    {
      if i < |vias| {
        EntryKept(log, log', vias[i], e.redo[i]);
        assert OnlyVia(log, u, e.redo[i], vias[i]);
      } else {
        assert op in log' && c in log';
        assert !HeldBack(log, u, c.id);
      }
    }
  }

  lemma RedoTracksOn(log: seq<LogOp>, e: Editor, vias: seq<int>, via: LogOp, op: LogOp)
    requires Tracks(log, e, vias) && e.redo != [] && (forall o :: o in log ==> o.id < op.id)
    requires via in log && via.id == vias[|vias| - 1] && via.revertsOpId == Some(e.redo[|e.redo| - 1])
    requires op.revertsOpId == Some(via.id) && !IsDaemons(op)
    ensures Tracks(log + [op], Press(e, PressRedo(op)), vias[..|vias| - 1])
  {
    var k := |vias| - 1;
    assert HoldsChange(log, e.redo[k]);
    var c :| c in log && c.id == e.redo[k] && UsersChange(c);
    assert OpenUndo(log, Undone(log), via);
    assert OnlyVia(log, Undone(log), e.redo[k], vias[k]);
    LogGrows(log, op);
    UndoneAfterRedo(log, c, via, op);
    var log' := log + [op];
    assert Standing(log') == Standing(log) + {c.id} by {
      assert c in log' && Takes(c, Undone(log'));
    }
    RedoMovesTop(e, op);
    RedoRedoStack(log, e, vias, c, via, op);
  }

  lemma RedoRedoStack(log: seq<LogOp>, e: Editor, vias: seq<int>, c: LogOp, via: LogOp, op: LogOp)
    requires Tracks(log, e, vias) && e.redo != [] && (forall o :: o in log ==> o.id < op.id)
    requires c in log && UsersChange(c) && c.id == e.redo[|e.redo| - 1]
    requires via in log && via.id == vias[|vias| - 1] && via.revertsOpId == Some(c.id)
    requires op.revertsOpId == Some(via.id)
    ensures RedoTracks(log + [op], Undone(log) + {via.id} - {c.id}, e.redo[..|e.redo| - 1], vias[..|vias| - 1])
  {
    RedoCloses(log, e, vias, c, via, op);
    RedoEntries(log, e, vias, c, via, op);
  }

  lemma RedoCloses(log: seq<LogOp>, e: Editor, vias: seq<int>, c: LogOp, via: LogOp, op: LogOp)
    requires Tracks(log, e, vias) && e.redo != [] && (forall o :: o in log ==> o.id < op.id)
    requires c in log && UsersChange(c) && via in log && via.id == vias[|vias| - 1] && via.revertsOpId.Some?
    requires op.revertsOpId == Some(via.id)
    ensures ListsOpenUndos(log + [op], Undone(log) + {via.id} - {c.id}, vias[..|vias| - 1])
  {
    var vias' := vias[..|vias| - 1];
    ViasOlder(log, e, vias, op.id);
    assert forall id :: id in vias' <==> id in vias && id != via.id;
    OpenUndosAfterRedo(log, Undone(log), vias, vias', c, via, op);
  }

  /** A redo closes the undo it reverts and opens none. */
  lemma OpenUndosAfterRedo(
    log: seq<LogOp>, u: set<int>, vias: seq<int>, vias': seq<int>, c: LogOp, via: LogOp, op: LogOp)
    requires LogLike(log) && ListsOpenUndos(log, u, vias) && (forall o :: o in log ==> o.id < op.id)
    requires c in log && UsersChange(c) && via in log && via.revertsOpId.Some? && op.revertsOpId == Some(via.id)
    requires forall id :: id in vias' <==> id in vias && id != via.id
    requires forall id :: id in vias ==> id < op.id
    ensures ListsOpenUndos(log + [op], u + {via.id} - {c.id}, vias')
  {
    var log', u' := log + [op], u + {via.id} - {c.id};
    assert forall o :: o in log' <==> o in log || o == op;
    assert RevertIds(log') == RevertIds(log) + {op.id};
    assert via.id in RevertIds(log);
    forall o | o in log' ensures OpenUndo(log', u', o) <==> o.id in vias' {
      assert o in log ==> (OpenUndo(log', u', o) <==> OpenUndo(log, u, o) && o.id != via.id);
    }
  }

  /** A redo leaves the other undone changes with the one undo they have. */
  lemma OnlyViaAfterRedo(log: seq<LogOp>, u: set<int>, c: LogOp, via: LogOp, op: LogOp, change: int, other: int)
    requires LogLike(log) && OnlyVia(log, u, change, other) && HoldsChange(log, change)
    requires c in log && UsersChange(c) && via in log && via.revertsOpId.Some? && op.revertsOpId == Some(via.id)
    ensures OnlyVia(log + [op], u + {via.id} - {c.id}, change, other)
  {
    assert forall o :: o in log + [op] <==> o in log || o == op;
  }

  lemma RedoEntries(log: seq<LogOp>, e: Editor, vias: seq<int>, c: LogOp, via: LogOp, op: LogOp)
    requires Tracks(log, e, vias) && e.redo != [] && (forall o :: o in log ==> o.id < op.id)
    requires c in log && UsersChange(c) && c.id == e.redo[|e.redo| - 1]
    requires via in log && via.revertsOpId == Some(c.id) && op.revertsOpId == Some(via.id)
    ensures var log', u' := log + [op], Undone(log) + {via.id} - {c.id};
      forall i :: 0 <= i < |e.redo| - 1 ==>
        Undid(log', vias[i], e.redo[i]) && OnlyVia(log', u', e.redo[i], vias[i]) && HoldsChange(log', e.redo[i])
  {
    var log', u' := log + [op], Undone(log) + {via.id} - {c.id};
    forall i | 0 <= i < |e.redo| - 1
      ensures Undid(log', vias[i], e.redo[i]) && OnlyVia(log', u', e.redo[i], vias[i]) && HoldsChange(log', e.redo[i])
    {
      EntryKept(log, log', vias[i], e.redo[i]);
      OnlyViaAfterRedo(log, Undone(log), c, via, op, e.redo[i], vias[i]);
    }
  }

  lemma StepTracks(log: seq<LogOp>, e: Editor, vias: seq<int>, ev: Event) returns (vias': seq<int>)
    requires Tracks(log, e, vias) && Admissible(log, ev)
    ensures Tracks(Append(log, ev), Press(e, ev), vias')
  {
    match ev
    case Change(op) =>
      ChangeTracks(log, e, vias, op);
      vias' := [];
    case Watch(op) =>
      WatchTracks(log, e, vias, op);
      vias' := vias;
    case PressUndo(op) =>
      UndoSelectsTop(log, e, vias);
      if e.undo == [] {
        vias' := vias;
      } else {
        var c := UndoOp(log, First(log)).value;
        var written := op.(revertsOpId := Some(c.id));
        UndoTracks(log, e, vias, c, written);
        vias' := vias + [op.id];
      }
    case PressRedo(op) =>
      RedoSelectsTop(log, e, vias);
      if e.redo == [] {
        vias' := vias;
      } else {
        var via := RedoOp(log).value;
        var written := op.(revertsOpId := Some(via.id));
        RedoTracksOn(log, e, vias, via, written);
        vias' := vias[..|vias| - 1];
      }
  }

  lemma {:induction false} RunTracks(root: LogOp, evs: seq<Event>) returns (vias: seq<int>)
    requires root.revertsOpId.None? && Runs(root, evs)
    ensures Tracks(Log(root, evs), Stacks(evs), vias)
  {
    if evs == [] {
      vias := [];
    } else {
      var before := evs[..|evs| - 1];
      vias := RunTracks(root, before);
      vias := StepTracks(Log(root, before), Stacks(before), vias, evs[|evs| - 1]);
    }
  }

  // ── The theorems ─────────────────────────────────────────────────────────

  /** Over every run, undo takes the top of the editor's undo stack and redo
      the undo of the top of its redo stack; with an empty stack it offers nothing. */
  lemma {:induction false} TwoStacks(root: LogOp, evs: seq<Event>)
    requires root.revertsOpId.None? && Runs(root, evs)
    ensures var log, e := Log(root, evs), Stacks(evs);
      && (UndoOp(log, First(log)).None? <==> e.undo == [])
      && (e.undo != [] ==> UndoOp(log, First(log)).value.id == e.undo[|e.undo| - 1])
      && (RedoOp(log).None? <==> e.redo == [])
      && (e.redo != [] ==> RedoOp(log).value.revertsOpId == Some(e.redo[|e.redo| - 1]))
  {
    var vias := RunTracks(root, evs);
    UndoSelectsTop(Log(root, evs), Stacks(evs), vias);
    RedoSelectsTop(Log(root, evs), Stacks(evs), vias);
  }

  /** The changes that stand in the log are those on the undo stack, oldest first. */
  lemma {:induction false} StandingIsUndoStack(root: LogOp, evs: seq<Event>)
    requires root.revertsOpId.None? && Runs(root, evs)
    ensures Ascending(Stacks(evs).undo)
    ensures forall id :: id in Stacks(evs).undo <==> id in Standing(Log(root, evs))
  {
    var vias := RunTracks(root, evs);
  }

  /** Undos, with the watcher's operations anywhere between. */
  ghost predicate OnlyUndos(evs: seq<Event>) {
    forall i :: 0 <= i < |evs| ==> evs[i].PressUndo? || evs[i].Watch?
  }

  ghost predicate OnlyRedos(evs: seq<Event>) {
    forall i :: 0 <= i < |evs| ==> evs[i].PressRedo? || evs[i].Watch?
  }

  /** How many of the events are not the watcher's. */
  function Presses(evs: seq<Event>): nat {
    if evs == [] then 0 else Presses(evs[..|evs| - 1]) + if evs[|evs| - 1].Watch? then 0 else 1
  }

  lemma StacksOneMore(evs: seq<Event>, more: seq<Event>)
    requires more != []
    ensures Stacks(evs + more) == Press(Stacks(evs + more[..|more| - 1]), more[|more| - 1])
  {
    assert (evs + more)[..|evs + more| - 1] == evs + more[..|more| - 1];
  }

  lemma {:induction false} StacksOfUndos(evs: seq<Event>, undos: seq<Event>)
    requires OnlyUndos(undos) && Presses(undos) <= |Stacks(evs).undo|
    ensures var e, e' := Stacks(evs), Stacks(evs + undos); var n := |e.undo| - Presses(undos);
      && e'.undo == e.undo[..n]
      && e'.redo == e.redo + Backwards(e.undo[n..])
  {
    if undos == [] {
      assert evs + undos == evs;
    } else {
      var k := |undos| - 1;
      var e, n := Stacks(evs), |Stacks(evs).undo| - Presses(undos);
      StacksOneMore(evs, undos);
      StacksOfUndos(evs, undos[..k]);
      if undos[k].Watch? {
        assert Presses(undos) == Presses(undos[..k]);
      } else {
        assert Stacks(evs + undos[..k]) == Editor(e.undo[..n + 1], e.redo + Backwards(e.undo[n + 1..]));
        OneUndo(e, n, undos[k]);
      }
    }
  }

  /** Pressing undo moves one more change to the redo stack. */
  lemma OneUndo(e: Editor, n: nat, ev: Event)
    requires ev.PressUndo? && n < |e.undo|
    ensures Press(Editor(e.undo[..n + 1], e.redo + Backwards(e.undo[n + 1..])), ev)
      == Editor(e.undo[..n], e.redo + Backwards(e.undo[n..]))
  {
    assert e.undo[n..][1..] == e.undo[n + 1..];
    assert e.undo[..n + 1][..n] == e.undo[..n];
  }

  /** Pressing redo moves it back. */
  lemma OneRedo(undo: seq<int>, base: seq<int>, back: seq<int>, m: nat, ev: Event)
    requires ev.PressRedo? && m < |back|
    ensures Press(Editor(undo + back[..m], base + Backwards(back[m..])), ev)
      == Editor(undo + back[..m + 1], base + Backwards(back[m + 1..]))
  {
    var rest := Backwards(back[m + 1..]);
    assert back[m..][1..] == back[m + 1..];
    assert base + Backwards(back[m..]) == base + rest + [back[m]];
    assert undo + back[..m + 1] == undo + back[..m] + [back[m]];
  }

  function Backwards(s: seq<int>): (r: seq<int>)
    ensures |r| == |s|
  {
    if s == [] then [] else Backwards(s[1..]) + [s[0]]
  }

  lemma {:induction false} StacksOfRedos(evs: seq<Event>, redos: seq<Event>, base: seq<int>, back: seq<int>)
    requires OnlyRedos(redos) && Presses(redos) <= |back| && Stacks(evs).redo == base + Backwards(back)
    ensures Stacks(evs + redos)
      == Editor(Stacks(evs).undo + back[..Presses(redos)], base + Backwards(back[Presses(redos)..]))
  {
    if redos == [] {
      assert evs + redos == evs;
      assert back[0..] == back;
    } else {
      var k := |redos| - 1;
      var m := Presses(redos[..k]);
      StacksOneMore(evs, redos);
      StacksOfRedos(evs, redos[..k], base, back);
      if !redos[k].Watch? {
        OneRedo(Stacks(evs).undo, base, back, m, redos[k]);
      }
    }
  }

  /** k undos followed by k redos, with the watcher's operations anywhere between,
      put both stacks and so the standing changes back where they were, whenever k
      changes were standing to undo. */
  lemma {:induction false} UndosThenRedosRestore(root: LogOp, evs: seq<Event>, undos: seq<Event>, redos: seq<Event>)
    requires root.revertsOpId.None? && Runs(root, evs) && Runs(root, evs + undos + redos)
    requires OnlyUndos(undos) && OnlyRedos(redos) && Presses(undos) == Presses(redos) <= |Stacks(evs).undo|
    ensures Stacks(evs + undos + redos) == Stacks(evs)
    ensures Standing(Log(root, evs + undos + redos)) == Standing(Log(root, evs))
  {
    StacksRestored(evs, undos, redos);
    StandingIsUndoStack(root, evs);
    StandingIsUndoStack(root, evs + undos + redos);
  }

  lemma {:induction false} StacksRestored(evs: seq<Event>, undos: seq<Event>, redos: seq<Event>)
    requires OnlyUndos(undos) && OnlyRedos(redos) && Presses(undos) == Presses(redos) <= |Stacks(evs).undo|
    ensures Stacks(evs + undos + redos) == Stacks(evs)
  {
    var e := Stacks(evs);
    var n := |e.undo| - Presses(undos);
    var back := e.undo[n..];
    StacksOfUndos(evs, undos);
    StacksOfRedos(evs + undos, redos, e.redo, back);
    assert back[..Presses(redos)] == back && back[Presses(redos)..] == [];
    assert e.undo[..n] + back == e.undo;
  }

  // ── Bounded reads ────────────────────────────────────────────────────────

  /** What `GET /log` with a limit answers: the newest `limit` operations. */
  ghost function NewestOps(log: seq<LogOp>, limit: nat): seq<LogOp> {
    if |log| <= limit then log else log[|log| - limit..]
  }

  ghost predicate AscendingIds(log: seq<LogOp>) {
    forall i, j :: 0 <= i < j < |log| ==> log[i].id < log[j].id
  }

  lemma AscendingIsLogLike(log: seq<LogOp>)
    requires AscendingIds(log) && RevertsOlder(log)
    ensures LogLike(log)
  {
    forall a, b | a in log && b in log && a.id == b.id ensures a == b {
      var i :| 0 <= i < |log| && log[i] == a;
      var j :| 0 <= j < |log| && log[j] == b;
    }
  }

  lemma ReadIsPart(log: seq<LogOp>, limit: nat)
    requires LogLike(log)
    ensures forall o :: o in NewestOps(log, limit) ==> o in log
    ensures LogLike(NewestOps(log, limit))
  {
  }

  /** A suffix of an ascending log holds whatever is no older than something in it. */
  lemma SuffixHoldsLater(log: seq<LogOp>, k: nat, o: LogOp, p: LogOp)
    requires AscendingIds(log) && k <= |log| && o in log[k..] && p in log && p.id >= o.id
    ensures p in log[k..]
  {
    var i :| k <= i < |log| && log[i] == o;
    var j :| 0 <= j < |log| && log[j] == p;
    assert j >= i;
    assert log[k..][j - k] == p;
  }

  lemma ReadIsNewest(log: seq<LogOp>, limit: nat, o: LogOp, p: LogOp)
    requires AscendingIds(log) && o in NewestOps(log, limit) && p in log && p.id >= o.id
    ensures p in NewestOps(log, limit)
  {
    if |log| > limit {
      SuffixHoldsLater(log, |log| - limit, o, p);
    }
  }

  lemma NewestOpsAreNewest(log: seq<LogOp>, limit: nat)
    requires AscendingIds(log) && RevertsOlder(log)
    ensures LogLike(log) && LogLike(NewestOps(log, limit))
    ensures forall o :: o in NewestOps(log, limit) ==> o in log
    ensures forall o, p :: o in NewestOps(log, limit) && p in log && p.id >= o.id ==> p in NewestOps(log, limit)
  {
    AscendingIsLogLike(log);
    ReadIsPart(log, limit);
    forall o, p | o in NewestOps(log, limit) && p in log && p.id >= o.id ensures p in NewestOps(log, limit) {
      ReadIsNewest(log, limit, o, p);
    }
  }

  /** An operation read is undone in the read exactly when it is in the whole log. */
  lemma {:induction false} WindowUndone(log: seq<LogOp>, limit: nat, op: LogOp)
    requires AscendingIds(log) && RevertsOlder(log) && op in NewestOps(log, limit)
    ensures op.id in Undone(NewestOps(log, limit)) <==> op.id in Undone(log)
    decreases MaxId(log) - op.id
  {
    var read := NewestOps(log, limit);
    NewestOpsAreNewest(log, limit);
    PassSettles(log);
    PassSettles(read);
    forall r | r in log && r.revertsOpId == Some(op.id)
      ensures r in read && (r.id in Undone(read) <==> r.id in Undone(log))
    {
      WindowUndone(log, limit, r);
    }
  }

  /** An undo offered by a bounded read is the undo of the whole log. */
  lemma WindowedUndoIsExact(log: seq<LogOp>, limit: nat, first: Option<int>)
    requires AscendingIds(log) && RevertsOlder(log)
    requires UndoOp(NewestOps(log, limit), first).Some?
    ensures UndoOp(log, first) == UndoOp(NewestOps(log, limit), first)
  {
    var read := NewestOps(log, limit);
    NewestOpsAreNewest(log, limit);
    UndoAnswer(read, first);
    var x := UndoOp(read, first).value;
    WindowUndone(log, limit, x);
    forall y | y in log && y.id > x.id ensures !StopsUndo(y, Undone(log), first) {
      WindowUndone(log, limit, y);
    }
    UndoDecided(log, first, x);
  }

  /** Nothing offered by a read that came back short, or that reached the log's
      first operation, is nothing to undo in the whole log. */
  lemma WindowedNoneIsFinal(log: seq<LogOp>, limit: nat, first: Option<int>)
    requires AscendingIds(log) && RevertsOlder(log)
    requires UndoOp(NewestOps(log, limit), first).None?
    requires |NewestOps(log, limit)| < limit || exists f :: f in NewestOps(log, limit) && Some(f.id) == first
    ensures UndoOp(log, first).None?
  {
    var read := NewestOps(log, limit);
    if |read| >= limit && UndoOp(log, first).Some? {
      NewestOpsAreNewest(log, limit);
      UndoAnswer(log, first);
      var x := UndoOp(log, first).value;
      var f :| f in read && Some(f.id) == first;
      assert x.id > f.id;
      assert x in read;
      WindowUndone(log, limit, x);
      UndoAnswer(read, first);
    }
  }
}
