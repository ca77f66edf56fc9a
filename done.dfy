/**
  * `tack done <id>` (cmd/done.go): the open -> done transition of a todo,
  * made in place on the store's table and then saved.
  */
module DoneCommand {
  import opened Wrappers
  import opened TackModel
  import opened TackStore

  /** How the command ends. The first two are the command's errors. */
  datatype DoneOutcome =
    | NoSuchTack(id: string)
    | NotATodo(at: Loc, kind: TackKind)
    | AlreadyDone(at: Loc)
    | Completed(at: Loc)

  /** The table once the tack at `loc` is marked done at `now`. */
  function CompleteAt(m: Table, loc: Loc, now: Time): (m': Table)
    requires ValidLoc(m, loc)
    ensures m'.Keys == m.Keys
    ensures forall d :: d in m ==> |m'[d]| == |m[d]|
  {
    var list := m[loc.dir];
    m[loc.dir := list[loc.index := list[loc.index].(done := true, doneAt := Some(now))]]
  }

  /**
    * Completing changes one tack and, of that tack, only the done flag and
    * the done time; its id, kind, message, directory and creation time stay.
    */
  lemma CompleteAtChangesOnlyTarget(m: Table, loc: Loc, now: Time)
    requires ValidLoc(m, loc)
    ensures var m' := CompleteAt(m, loc, now);
      forall l :: ValidLoc(m, l) && l != loc ==> ValidLoc(m', l) && TackAt(m', l) == TackAt(m, l)
    ensures var t, t' := TackAt(m, loc), TackAt(CompleteAt(m, loc, now), loc);
      && t'.id == t.id && t'.kind == t.kind && t'.message == t.message
      && t'.dir == t.dir && t'.createdAt == t.createdAt
      && t'.done && t'.doneAt == Some(now)
  {
  }

  /** Completing an open todo takes exactly one open todo out of the table. */
  lemma CompleteAtClosesOneTodo(m: Table, loc: Loc, now: Time)
    requires ValidLoc(m, loc) && IsOpenTodo(TackAt(m, loc))
    ensures OpenTodos(CompleteAt(m, loc, now)) == OpenTodos(m) - 1
    ensures TotalTacks(CompleteAt(m, loc, now)) == TotalTacks(m)
  {
    var list := m[loc.dir];
    var t' := list[loc.index].(done := true, doneAt := Some(now));
    OpenTodoCountUpdate(list, loc.index, t');
    SumOverUpdate(m, OpenTodoCount, loc.dir, list[loc.index := t']);
    SumOverUpdate(m, ListLength, loc.dir, list[loc.index := t']);
  }

  /** A tack that is done stays as it is, and no tack goes from done back to open. */
  lemma CompleteAtKeepsDoneTacks(m: Table, loc: Loc, now: Time)
    requires ValidLoc(m, loc) && !TackAt(m, loc).done
    ensures var m' := CompleteAt(m, loc, now);
      forall l :: ValidLoc(m, l) ==>
        && ValidLoc(m', l)
        && (TackAt(m, l).done ==> TackAt(m', l) == TackAt(m, l))
        && (TackAt(m, l).done ==> TackAt(m', l).done)
  {
    CompleteAtChangesOnlyTarget(m, loc, now);
  }

  /** Every done tack carries the time it was done. */
  ghost predicate DoneStamped(m: Table) {
    forall d, i :: d in m && 0 <= i < |m[d]| && m[d][i].done ==> m[d][i].doneAt.Some?
  }

  lemma CompleteAtKeepsStamped(m: Table, loc: Loc, now: Time)
    requires ValidLoc(m, loc) && DoneStamped(m)
    ensures DoneStamped(CompleteAt(m, loc, now))
  {
    CompleteAtChangesOnlyTarget(m, loc, now);
    var m': Table := CompleteAt(m, loc, now);
    forall d, i | d in m' && 0 <= i < |m'[d]| && m'[d][i].done
      ensures m'[d][i].doneAt.Some?
    {
      assert ValidLoc(m, Loc(d, i)) && TackAt(m', Loc(d, i)) == m'[d][i];
    }
  }

  /** Tacks created the way `pin`, `todo` and `warn` create them keep the table stamped. */
  lemma AddKeepsStamped(m: Table, t: Tack)
    requires DoneStamped(m) && !t.done
    ensures DoneStamped(WithAdded(m, t))
  {
    var m': Table := WithAdded(m, t);
    forall d, i | d in m' && 0 <= i < |m'[d]| && m'[d][i].done
      ensures m'[d][i].doneAt.Some?
    {
      if d == t.dir && i < |ListAt(m, d)| {
        assert m'[d][i] == m[d][i];
      }
    }
  }

  lemma RemoveKeepsStamped(m: Table, loc: Loc)
    requires ValidLoc(m, loc) && DoneStamped(m)
    ensures DoneStamped(Without(m, loc))
  {
    var m': Table := Without(m, loc);
    WithoutKeepsOrder(m, loc);
    forall d, i | d in m' && 0 <= i < |m'[d]| && m'[d][i].done
      ensures m'[d][i].doneAt.Some?
    {
      if d == loc.dir && loc.index <= i {
        assert m'[d][i] == m[d][i + 1];
      }
    }
  }

  lemma CompleteAtKeepsFiled(m: Table, loc: Loc, now: Time)
    requires ValidLoc(m, loc) && Filed(m)
    ensures Filed(CompleteAt(m, loc, now))
  {
    CompleteAtChangesOnlyTarget(m, loc, now);
    var m': Table := CompleteAt(m, loc, now);
    forall d, i | d in m' && 0 <= i < |m'[d]|
      ensures m'[d][i].dir == d
    {
      assert ValidLoc(m, Loc(d, i)) && TackAt(m', Loc(d, i)) == m'[d][i];
    }
  }

  /**
    * A second `done` never moves the first one's done time: the tack it
    * completed is no longer an open todo, so a second completion lands elsewhere.
    */
  lemma SecondDoneKeepsFirstTime(m: Table, loc: Loc, now: Time, loc2: Loc, later: Time)
    requires ValidLoc(m, loc) && IsOpenTodo(TackAt(m, loc))
    requires ValidLoc(CompleteAt(m, loc, now), loc2)
    requires IsOpenTodo(TackAt(CompleteAt(m, loc, now), loc2))
    ensures loc2 != loc
    ensures var m2 := CompleteAt(CompleteAt(m, loc, now), loc2, later);
      ValidLoc(m2, loc) && TackAt(m2, loc).doneAt == Some(now)
  {
    var m1 := CompleteAt(m, loc, now);
    CompleteAtChangesOnlyTarget(m, loc, now);
    CompleteAtChangesOnlyTarget(m1, loc2, later);
  }

  /**
    * The body of the command after the store is loaded: look the id up,
    * refuse an unknown id or a tack that is not a todo, do nothing for a todo
    * already done, and otherwise set its done flag and done time through the
    * location `FindByID` gave, then save.
    */
  method RunDone(s: Store, id: string, now: Time) returns (r: DoneOutcome)
    modifies s
    ensures r.NoSuchTack? <==> !HasId(old(s.tacks), id)
    ensures r.NoSuchTack? ==> r.id == id
    ensures !r.Completed? ==> s.tacks == old(s.tacks) && s.disk == old(s.disk)
    ensures r.NotATodo? ==>
      && FirstInList(old(s.tacks), r.at, id)
      && r.kind == TackAt(old(s.tacks), r.at).kind && r.kind != KindTodo
    ensures r.AlreadyDone? ==>
      && FirstInList(old(s.tacks), r.at, id)
      && TackAt(old(s.tacks), r.at).kind == KindTodo && TackAt(old(s.tacks), r.at).done
    ensures r.Completed? ==>
      && FirstInList(old(s.tacks), r.at, id)
      && IsOpenTodo(TackAt(old(s.tacks), r.at))
      && s.tacks == CompleteAt(old(s.tacks), r.at, now)
      && s.disk == EncodeTable(s.tacks)
  {
    var found := s.FindByID(id);
    if found.None? {
      return NoSuchTack(id);
    }
    var loc := found.value;
    var t := s.tacks[loc.dir][loc.index];
    if t.kind != KindTodo {
      return NotATodo(loc, t.kind);
    }
    if t.done {
      return AlreadyDone(loc);
    }
    ghost var before := s.tacks;
    var list := s.tacks[loc.dir];
    s.tacks := s.tacks[loc.dir := list[loc.index := list[loc.index].(done := true)]];
    list := s.tacks[loc.dir];
    s.tacks := s.tacks[loc.dir := list[loc.index := list[loc.index].(doneAt := Some(now))]];
    assert s.tacks[loc.dir] == CompleteAt(before, loc, now)[loc.dir];
    assert s.tacks == CompleteAt(before, loc, now);
    s.Save();
    return Completed(loc);
  }
}
