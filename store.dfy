/**
  * The tack store (internal/store/store.go): a table from directory path to
  * the tacks filed under it, changed in place and written back whole.
  */
module TackStore {
  import opened Wrappers
  import opened TackModel

  /** Directory path to its tacks, in the order they were added. */
  type Table = map<string, seq<Tack>>

  /** The `tacks` object of the file: directory path to the saved tacks. */
  type File = map<string, seq<JsonObject>>

  /** Where a tack sits: the key of its list and its position in that list. */
  datatype Loc = Loc(dir: string, index: nat)

  /** The list under `dir`; Go's lookup of a missing key gives an empty slice. */
  function ListAt(m: Table, dir: string): seq<Tack> {
    if dir in m then m[dir] else []
  }

  predicate ValidLoc(m: Table, loc: Loc) {
    loc.dir in m && loc.index < |m[loc.dir]|
  }

  function TackAt(m: Table, loc: Loc): Tack
    requires ValidLoc(m, loc)
  {
    m[loc.dir][loc.index]
  }

  /** Some tack in some list has id `id`. */
  predicate HasId(m: Table, id: string) {
    exists d, i :: d in m && 0 <= i < |m[d]| && m[d][i].id == id
  }

  /** `loc` holds a tack with id `id` and no earlier tack of the same list has that id. */
  predicate FirstInList(m: Table, loc: Loc, id: string) {
    && ValidLoc(m, loc)
    && TackAt(m, loc).id == id
    && forall j :: 0 <= j < loc.index ==> m[loc.dir][j].id != id
  }

  // ---------------------------------------------------------------- saved form

  function EncodeList(ts: seq<Tack>): (os: seq<JsonObject>)
    ensures |os| == |ts|
  {
    seq(|ts|, i requires 0 <= i < |ts| => Marshal(ts[i]))
  }

  /** What `Save` writes: every list, each tack marshalled. */
  function EncodeTable(m: Table): (f: File)
    ensures f.Keys == m.Keys
  {
    map d | d in m :: EncodeList(m[d])
  }

  function DecodeList(os: seq<JsonObject>): (ts: seq<Tack>)
    ensures |ts| == |os|
  {
    seq(|os|, i requires 0 <= i < |os| => Unmarshal(os[i]))
  }

  /**
    * What `New` reads back. Nothing restores the directory field, so every
    * tack read from the file has an empty directory.
    */
  function DecodeTable(f: File): (m: Table)
    ensures m.Keys == f.Keys
    ensures forall d, i :: d in m && 0 <= i < |m[d]| ==> m[d][i].dir == ""
  {
    map d | d in f :: DecodeList(f[d])
  }

  /** The table with every directory field emptied. */
  function StripDirs(m: Table): Table {
    map d | d in m :: seq(|m[d]|, i requires 0 <= i < |m[d]| => m[d][i].(dir := ""))
  }

  /** Writing the table and reading it back loses exactly the directory fields. */
  lemma ReloadRoundTrip(m: Table)
    ensures DecodeTable(EncodeTable(m)) == StripDirs(m)
  {
    forall d | d in m
      ensures DecodeList(EncodeList(m[d])) == StripDirs(m)[d]
    {
      forall i | 0 <= i < |m[d]|
        ensures DecodeList(EncodeList(m[d]))[i] == m[d][i].(dir := "")
      {
        MarshalRoundTrip(m[d][i]);
      }
    }
  }

  // ---------------------------------------------------------------- ForDir

  /** The tacks of `list` whose own directory field is `dir`, in list order. */
  function Owned(list: seq<Tack>, dir: string): (r: seq<Tack>)
    ensures |r| <= |list|
  {
    if list == [] then []
    else Owned(list[..|list| - 1], dir)
         + (if list[|list| - 1].dir == dir then [list[|list| - 1]] else [])
  }

  /** `Owned` keeps exactly the tacks whose directory field is `dir`. */
  lemma {:induction false} OwnedMembers(list: seq<Tack>, dir: string)
    ensures forall t :: t in Owned(list, dir) <==> t in list && t.dir == dir
  {
    if list != [] {
      var init := list[..|list| - 1];
      OwnedMembers(init, dir);
      assert list == init + [list[|list| - 1]];
    }
  }

  /** `Owned` distributes over concatenation, so it keeps the stored order. */
  lemma {:induction false} OwnedConcat(a: seq<Tack>, b: seq<Tack>, dir: string)
    ensures Owned(a + b, dir) == Owned(a, dir) + Owned(b, dir)
    decreases |b|
  {
    if b == [] {
      assert a + b == a;
    } else {
      var init := b[..|b| - 1];
      assert (a + b)[..|a + b| - 1] == a + init;
      OwnedConcat(a, init, dir);
    }
  }

  /** When every tack of a list carries its key, `Owned` gives the whole list. */
  lemma {:induction false} OwnedWhenFiled(list: seq<Tack>, dir: string)
    requires forall i :: 0 <= i < |list| ==> list[i].dir == dir
    ensures Owned(list, dir) == list
  {
    if list != [] {
      OwnedWhenFiled(list[..|list| - 1], dir);
    }
  }

  /** When no tack of a list carries `dir`, `Owned` is empty. */
  lemma {:induction false} OwnedWhenUnfiled(list: seq<Tack>, dir: string)
    requires forall i :: 0 <= i < |list| ==> list[i].dir != dir
    ensures Owned(list, dir) == []
  {
    if list != [] {
      OwnedWhenUnfiled(list[..|list| - 1], dir);
    }
  }

  /** After a reload, `ForDir` of any real directory finds nothing. */
  lemma ReloadedTableOwnsNothing(f: File, dir: string)
    requires dir != ""
    ensures Owned(ListAt(DecodeTable(f), dir), dir) == []
  {
    var m := DecodeTable(f);
    OwnedWhenUnfiled(ListAt(m, dir), dir);
  }

  /** Any tack `ForDir` lists for a real directory is missing from `ForDir` after a save and a load. */
  lemma ReloadHidesTacks(m: Table, dir: string, t: Tack)
    requires dir != "" && t in Owned(ListAt(m, dir), dir)
    ensures t !in Owned(ListAt(DecodeTable(EncodeTable(m)), dir), dir)
  {
    ReloadedTableOwnsNothing(EncodeTable(m), dir);
  }

  /** One todo added in /p: listed before the save and load, not after it. */
  lemma ReloadHidesTacksExample()
    ensures var t := Tack("0a1b", KindTodo, "ship it", "/p", false, 0, None);
      var m := map["/p" := [t]];
      && Owned(ListAt(m, "/p"), "/p") == [t]
      && Owned(ListAt(DecodeTable(EncodeTable(m)), "/p"), "/p") == []
  {
    var t := Tack("0a1b", KindTodo, "ship it", "/p", false, 0, None);
    var m := map["/p" := [t]];
    assert [t][..0] == [];
    ReloadedTableOwnsNothing(EncodeTable(m), "/p");
  }

  /** Every tack sits in the list under its own directory field. */
  predicate Filed(m: Table) {
    forall d, i :: d in m && 0 <= i < |m[d]| ==> m[d][i].dir == d
  }

  /** In a filed table `ForDir` filters nothing out. */
  lemma FiledForDirIsList(m: Table, dir: string)
    requires Filed(m)
    ensures Owned(ListAt(m, dir), dir) == ListAt(m, dir)
  {
    OwnedWhenFiled(ListAt(m, dir), dir);
  }

  /** The load with the directory restored from the key each list is filed under. */
  function DecodeTableFiled(f: File): (m: Table)
    ensures m.Keys == f.Keys
    ensures Filed(m)
  {
    map d | d in f :: seq(|f[d]|, i requires 0 <= i < |f[d]| => Unmarshal(f[d][i]).(dir := d))
  }

  /** With the directory restored, a filed table survives a save and a reload whole. */
  lemma FiledReloadRoundTrip(m: Table)
    requires Filed(m)
    ensures DecodeTableFiled(EncodeTable(m)) == m
  {
    var m' := DecodeTableFiled(EncodeTable(m));
    forall d | d in m
      ensures m'[d] == m[d]
    {
      forall i | 0 <= i < |m[d]|
        ensures m'[d][i] == m[d][i]
      {
        MarshalRoundTrip(m[d][i]);
      }
    }
  }

  // ---------------------------------------------------------------- sums over the table

  function ListLength(ts: seq<Tack>): nat {
    |ts|
  }

  /** The number of open todos in one list. */
  function OpenTodoCount(ts: seq<Tack>): (n: nat)
    ensures n <= |ts|
  {
    if ts == [] then 0
    else OpenTodoCount(ts[..|ts| - 1]) + (if IsOpenTodo(ts[|ts| - 1]) then 1 else 0)
  }

  /** Replacing one tack changes the count by that tack's contribution only. */
  lemma {:induction false} OpenTodoCountUpdate(ts: seq<Tack>, i: nat, t: Tack)
    requires i < |ts|
    ensures OpenTodoCount(ts[i := t])
         == OpenTodoCount(ts) - (if IsOpenTodo(ts[i]) then 1 else 0) + (if IsOpenTodo(t) then 1 else 0)
  {
    var n := |ts| - 1;
    var ts' := ts[i := t];
    assert ts'[..n] == if i == n then ts[..n] else ts[..n][i := t];
    if i < n {
      OpenTodoCountUpdate(ts[..n], i, t);
    }
  }

  /** `f` summed over every list of the table, in no particular key order. */
  ghost function SumOver(m: Table, f: seq<Tack> -> nat): nat
    decreases m.Keys
  {
    if m.Keys == {} then 0
    else
      var d :| d in m;
      f(m[d]) + SumOver(m - {d}, f)
  }

  /** The number of tacks in the table. */
  ghost function TotalTacks(m: Table): nat {
    SumOver(m, ListLength)
  }

  /** The number of open todos in the table. */
  ghost function OpenTodos(m: Table): nat {
    SumOver(m, OpenTodoCount)
  }

  /** The sum does not depend on the key taken first. */
  lemma {:induction false} SumOverSplit(m: Table, f: seq<Tack> -> nat, k: string)
    requires k in m
    ensures SumOver(m, f) == f(m[k]) + SumOver(m - {k}, f)
    decreases m.Keys
  {
    var d :| d in m && SumOver(m, f) == f(m[d]) + SumOver(m - {d}, f);
    if d != k {
      SumOverSplit(m - {d}, f, k);
      SumOverSplit(m - {k}, f, d);
      assert m - {d} - {k} == m - {k} - {d};
    }
  }

  /** Replacing one list changes the sum by the difference of that list's terms. */
  lemma SumOverUpdate(m: Table, f: seq<Tack> -> nat, k: string, s: seq<Tack>)
    ensures SumOver(m[k := s], f) == SumOver(m, f) - (if k in m then f(m[k]) else 0) + f(s)
  {
    SumOverSplit(m[k := s], f, k);
    assert m[k := s] - {k} == m - {k};
    if k in m {
      SumOverSplit(m, f, k);
    } else {
      assert m - {k} == m;
    }
  }

  // ---------------------------------------------------------------- Add

  /** The table after `Add(t)`: `t` appended to the list under its own directory. */
  function WithAdded(m: Table, t: Tack): (m': Table)
    ensures m'.Keys == m.Keys + {t.dir}
    ensures forall d :: d in m && d != t.dir ==> m'[d] == m[d]
  {
    m[t.dir := ListAt(m, t.dir) + [t]]
  }

  /** `Add` does not look for an existing id: the table always grows by one tack. */
  lemma AddGrowsByOne(m: Table, t: Tack)
    ensures TotalTacks(WithAdded(m, t)) == TotalTacks(m) + 1
  {
    SumOverUpdate(m, ListLength, t.dir, ListAt(m, t.dir) + [t]);
  }

  /** The added tack is the last of its list, so a lookup of its id succeeds. */
  lemma AddThenFound(m: Table, t: Tack)
    ensures var m' := WithAdded(m, t);
      ValidLoc(m', Loc(t.dir, |ListAt(m, t.dir)|)) && TackAt(m', Loc(t.dir, |ListAt(m, t.dir)|)) == t
    ensures HasId(WithAdded(m, t), t.id)
  {
    var m': Table := WithAdded(m, t);
    assert m'[t.dir][|ListAt(m, t.dir)|] == t;
  }

  /** A tack added in-process is listed by `ForDir` of its directory, after the earlier ones. */
  lemma AddThenOwned(m: Table, t: Tack)
    ensures Owned(ListAt(WithAdded(m, t), t.dir), t.dir) == Owned(ListAt(m, t.dir), t.dir) + [t]
  {
    var list := ListAt(m, t.dir) + [t];
    assert list[..|list| - 1] == ListAt(m, t.dir);
  }

  /** `Add` files the tack under its own directory, so a filed table stays filed. */
  lemma AddKeepsFiled(m: Table, t: Tack)
    requires Filed(m)
    ensures Filed(WithAdded(m, t))
  {
    var m': Table := WithAdded(m, t);
    forall d, i | d in m' && 0 <= i < |m'[d]|
      ensures m'[d][i].dir == d
    {
      if d == t.dir && i < |ListAt(m, d)| {
        assert m'[d][i] == m[d][i];
      }
    }
  }

  // ---------------------------------------------------------------- Remove

  /** The table with the tack at `loc` spliced out of its list. */
  function Without(m: Table, loc: Loc): (m': Table)
    requires ValidLoc(m, loc)
    ensures m'.Keys == m.Keys
    ensures |m'[loc.dir]| == |m[loc.dir]| - 1
    ensures forall d :: d in m && d != loc.dir ==> m'[d] == m[d]
  {
    m[loc.dir := m[loc.dir][..loc.index] + m[loc.dir][loc.index + 1..]]
  }

  /** The other tacks of the list keep their relative order, and only the one tack is gone. */
  lemma WithoutKeepsOrder(m: Table, loc: Loc)
    requires ValidLoc(m, loc)
    ensures var list, list' := m[loc.dir], Without(m, loc)[loc.dir];
      && (forall j :: 0 <= j < loc.index ==> list'[j] == list[j])
      && (forall j :: loc.index <= j < |list'| ==> list'[j] == list[j + 1])
      && multiset(list) == multiset(list') + multiset{TackAt(m, loc)}
  {
    var list := m[loc.dir];
    assert list == list[..loc.index] + [list[loc.index]] + list[loc.index + 1..];
  }

  /** Removing takes exactly one tack out of the table. */
  lemma RemoveShrinksByOne(m: Table, loc: Loc)
    requires ValidLoc(m, loc)
    ensures TotalTacks(Without(m, loc)) == TotalTacks(m) - 1
  {
    SumOverUpdate(m, ListLength, loc.dir, Without(m, loc)[loc.dir]);
    assert m[loc.dir := Without(m, loc)[loc.dir]] == Without(m, loc);
  }

  /** When the removed tack was the only one with its id, the id is no longer found. */
  lemma RemoveUniqueIdGone(m: Table, loc: Loc, id: string)
    requires ValidLoc(m, loc) && TackAt(m, loc).id == id
    requires forall d, i :: d in m && 0 <= i < |m[d]| && Loc(d, i) != loc ==> m[d][i].id != id
    ensures !HasId(Without(m, loc), id)
  {
    var m': Table := Without(m, loc);
    WithoutKeepsOrder(m, loc);
    forall d, i | d in m' && 0 <= i < |m'[d]|
      ensures m'[d][i].id != id
    {
      if d == loc.dir && loc.index <= i {
        assert m'[d][i] == m[d][i + 1];
        assert Loc(d, i + 1) != loc;
      }
    }
  }

  /** With a duplicate id, the id is still found after one removal. */
  lemma RemoveDuplicateIdStays(m: Table, loc: Loc, other: Loc, id: string)
    requires ValidLoc(m, loc) && ValidLoc(m, other) && other != loc
    requires TackAt(m, loc).id == id && TackAt(m, other).id == id
    ensures HasId(Without(m, loc), id)
  {
    var m': Table := Without(m, loc);
    WithoutKeepsOrder(m, loc);
    if other.dir != loc.dir {
      assert m'[other.dir][other.index].id == id;
    } else if other.index < loc.index {
      assert m'[other.dir][other.index].id == id;
    } else {
      assert m'[other.dir][other.index - 1].id == id;
    }
  }

  lemma RemoveKeepsFiled(m: Table, loc: Loc)
    requires ValidLoc(m, loc) && Filed(m)
    ensures Filed(Without(m, loc))
  {
    var m': Table := Without(m, loc);
    WithoutKeepsOrder(m, loc);
    forall d, i | d in m' && 0 <= i < |m'[d]|
      ensures m'[d][i].dir == d
    {
      if d == loc.dir && loc.index <= i {
        assert m'[d][i] == m[d][i + 1];
      }
    }
  }

  // ---------------------------------------------------------------- the store object

  class Store {
    var tacks: Table
    /** The file's content as last written by `Save`, or as read by `New`. */
    ghost var disk: File

    /** `New` when the file exists: the table is what the file decodes to. */
    constructor Open(file: File)
      ensures tacks == DecodeTable(file) && disk == file
    {
      tacks := DecodeTable(file);
      disk := file;
    }

    /** `New` with the directory of every loaded tack restored, as the program intends. */
    constructor OpenFiled(file: File)
      ensures tacks == DecodeTableFiled(file) && disk == file
      ensures Filed(tacks)
    {
      tacks := DecodeTableFiled(file);
      disk := file;
    }

    /** `New` when there is no file yet: an empty table, saved at once. */
    constructor Create()
      ensures tacks == map[] && disk == EncodeTable(map[])
    {
      tacks := map[];
      disk := EncodeTable(map[]);
    }

    /** Writes the whole table over the file. */
    method Save()
      modifies this`disk
      ensures disk == EncodeTable(tacks)
    {
      disk := EncodeTable(tacks);
    }

    method Add(t: Tack)
      modifies this
      ensures tacks == WithAdded(old(tacks), t)
      ensures disk == EncodeTable(tacks)
    {
      tacks := tacks[t.dir := ListAt(tacks, t.dir) + [t]];
      Save();
    }

    method ForDir(dir: string) returns (r: seq<Tack>)
      ensures r == Owned(ListAt(tacks, dir), dir)
    {
      var list := ListAt(tacks, dir);
      r := [];
      for i := 0 to |list|
        invariant r == Owned(list[..i], dir)
      {
        assert list[..i + 1][..i] == list[..i];
        if list[i].dir == dir {
          r := r + [list[i]];
        }
      }
      assert list[..|list|] == list;
    }

    /**
      * Scans the lists in an unspecified key order and each list from the
      * front; `None` stands for Go's nil pointer.
      */
    method FindByID(id: string) returns (loc: Option<Loc>)
      ensures loc.None? <==> !HasId(tacks, id)
      ensures loc.Some? ==> FirstInList(tacks, loc.value, id)
    {
      var rest := tacks.Keys;
      while rest != {}
        invariant rest <= tacks.Keys
        invariant forall d, i :: d in tacks && d !in rest && 0 <= i < |tacks[d]| ==> tacks[d][i].id != id
        decreases rest
      {
        var dir :| dir in rest;
        var list := tacks[dir];
        for i := 0 to |list|
          invariant forall j :: 0 <= j < i ==> list[j].id != id
        {
          if list[i].id == id {
            return Some(Loc(dir, i));
          }
        }
        rest := rest - {dir};
      }
      return None;
    }

    /** `None` stands for the not-found error; then nothing changes and nothing is saved. */
    method Remove(id: string) returns (removed: Option<Loc>)
      modifies this
      ensures removed.None? <==> !HasId(old(tacks), id)
      ensures removed.None? ==> tacks == old(tacks) && disk == old(disk)
      ensures removed.Some? ==>
        && FirstInList(old(tacks), removed.value, id)
        && tacks == Without(old(tacks), removed.value)
        && disk == EncodeTable(tacks)
    {
      var rest := tacks.Keys;
      while rest != {}
        invariant rest <= tacks.Keys
        invariant tacks == old(tacks) && disk == old(disk)
        invariant forall d, i :: d in tacks && d !in rest && 0 <= i < |tacks[d]| ==> tacks[d][i].id != id
        decreases rest
      {
        var dir :| dir in rest;
        var list := tacks[dir];
        for i := 0 to |list|
          invariant forall j :: 0 <= j < i ==> list[j].id != id
        {
          if list[i].id == id {
            tacks := tacks[dir := list[..i] + list[i + 1..]];
            Save();
            return Some(Loc(dir, i));
          }
        }
        rest := rest - {dir};
      }
      return None;
    }

    /** Every key once, in an unspecified order; emptied lists keep their key. */
    method AllDirs() returns (dirs: seq<string>)
      ensures multiset(dirs) == multiset(tacks.Keys)
    {
      dirs := [];
      var rest := tacks.Keys;
      while rest != {}
        invariant rest <= tacks.Keys
        invariant multiset(dirs) + multiset(rest) == multiset(tacks.Keys)
        decreases rest
      {
        var dir :| dir in rest;
        assert multiset(rest) == multiset(rest - {dir}) + multiset{dir};
        dirs := dirs + [dir];
        rest := rest - {dir};
      }
    }
  }

  /** A list of the directories as `AllDirs` gives them: each key exactly once. */
  lemma AllDirsExactlyOnce(m: Table, dirs: seq<string>)
    requires multiset(dirs) == multiset(m.Keys)
    ensures |dirs| == |m.Keys|
    ensures forall d :: d in dirs <==> d in m
    ensures forall i, j :: 0 <= i < j < |dirs| ==> dirs[i] != dirs[j]
  {
    assert |multiset(dirs)| == |dirs|;
    forall d
      ensures d in dirs <==> d in m
    {
      assert d in dirs <==> d in multiset(dirs);
    }
    forall i, j | 0 <= i < j < |dirs|
      ensures dirs[i] != dirs[j]
    {
      var x := dirs[j];
      assert dirs == dirs[..j] + [x] + dirs[j + 1..];
      assert x in multiset(dirs);
      assert multiset(dirs[..j])[x] == 0;
      assert dirs[..j][i] == dirs[i];
    }
  }
}
