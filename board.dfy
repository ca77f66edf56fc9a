/**
  * `tack board` (cmd/board.go): every directory in ascending order, or only
  * those holding a stale open todo, and the footer counts.
  */
module BoardCommand {
  import opened TackModel
  import opened TackStore

  // ---------------------------------------------------------------- 64-bit time

  const MinInt64: int := -0x8000_0000_0000_0000
  const MaxInt64: int := 0x7FFF_FFFF_FFFF_FFFF
  const TwoTo64: int := 0x1_0000_0000_0000_0000

  /** `time.Hour` in nanoseconds. */
  const Hour: int := 3_600_000_000_000

  /** Go's two's-complement wrap-around of an int64 result. */
  function Wrap64(x: int): (r: int)
    ensures MinInt64 <= r <= MaxInt64
    ensures (r - x) % TwoTo64 == 0
    ensures MinInt64 <= x <= MaxInt64 ==> r == x
  {
    (x - MinInt64) % TwoTo64 + MinInt64
  }

  /**
    * `time.Duration(staleDays) * 24 * time.Hour`: both products wrap. Up to
    * 106751 days the threshold is exactly that many days.
    */
  function StaleThreshold(staleDays: int): (r: int)
    requires MinInt64 <= staleDays <= MaxInt64
    ensures MinInt64 <= r <= MaxInt64
    ensures 0 <= staleDays <= 106751 ==> r == staleDays * 24 * Hour
  {
    Wrap64(Wrap64(staleDays * 24) * Hour)
  }

  /** One day more and the product wraps to a negative threshold. */
  lemma ThresholdWrapsPastLimit()
    ensures StaleThreshold(106752) < 0
  {
    assert 106752 * 24 * Hour - TwoTo64 == -9223371273709551616;
  }

  /** `time.Since(createdAt)` at `now`: `now.Sub(createdAt)`, saturating at the int64 bounds. */
  function Since(now: Time, createdAt: Time): (d: int)
    ensures MinInt64 <= d <= MaxInt64
    ensures now - createdAt >= MaxInt64 ==> d == MaxInt64
    ensures now - createdAt <= MinInt64 ==> d == MinInt64
    ensures MinInt64 <= now - createdAt <= MaxInt64 ==> d == now - createdAt
  {
    var d := now - createdAt;
    if d > MaxInt64 then MaxInt64 else if d < MinInt64 then MinInt64 else d
  }

  /** An open todo older than the threshold. */
  predicate IsStale(t: Tack, now: Time, threshold: int) {
    t.kind == KindTodo && !t.done && Since(now, t.createdAt) > threshold
  }

  predicate HasStale(ts: seq<Tack>, now: Time, threshold: int) {
    exists i :: 0 <= i < |ts| && IsStale(ts[i], now, threshold)
  }

  /** The `hasStale` scan, stopping at the first stale todo. */
  method AnyStale(ts: seq<Tack>, now: Time, threshold: int) returns (hasStale: bool)
    ensures hasStale <==> HasStale(ts, now, threshold)
  {
    hasStale := false;
    var i := 0;
    while i < |ts|
      invariant 0 <= i <= |ts|
      invariant !hasStale
      invariant forall j :: 0 <= j < i ==> !IsStale(ts[j], now, threshold)
    {
      if ts[i].kind == KindTodo && !ts[i].done && Since(now, ts[i].createdAt) > threshold {
        hasStale := true;
        break;
      }
      i := i + 1;
    }
  }

  // ---------------------------------------------------------------- string order

  /** Go's `<` on strings: byte-wise on UTF-8, which orders as the code points do. */
  predicate Below(a: string, b: string)
    decreases |a|
  {
    if a == [] then b != []
    else if b == [] then false
    else if a[0] != b[0] then a[0] < b[0]
    else Below(a[1..], b[1..])
  }

  predicate AtMost(a: string, b: string) {
    a == b || Below(a, b)
  }

  lemma {:induction false} BelowIrreflexive(a: string)
    ensures !Below(a, a)
  {
    if a != [] {
      BelowIrreflexive(a[1..]);
    }
  }

  lemma {:induction false} BelowTransitive(a: string, b: string, c: string)
    requires Below(a, b) && Below(b, c)
    ensures Below(a, c)
    decreases |a|
  {
    if a != [] && a[0] == b[0] && b[0] == c[0] {
      BelowTransitive(a[1..], b[1..], c[1..]);
    }
  }

  lemma {:induction false} BelowTotal(a: string, b: string)
    ensures a == b || Below(a, b) || Below(b, a)
    decreases |a|
  {
    if a != [] && b != [] && a[0] == b[0] {
      BelowTotal(a[1..], b[1..]);
      if a[1..] == b[1..] {
        assert a == [a[0]] + a[1..] && b == [b[0]] + b[1..];
      }
    }
  }

  lemma AtMostTransitive(a: string, b: string, c: string)
    requires AtMost(a, b) && AtMost(b, c)
    ensures AtMost(a, c)
  {
    if Below(a, b) && Below(b, c) {
      BelowTransitive(a, b, c);
    }
  }

  predicate Ascending(s: seq<string>) {
    forall i, j :: 0 <= i < j < |s| ==> AtMost(s[i], s[j])
  }

  predicate StrictlyAscending(s: seq<string>) {
    forall i, j :: 0 <= i < j < |s| ==> Below(s[i], s[j])
  }

  /** `sort.Strings`, in place: an insertion sort. */
  method SortStrings(a: array<string>)
    modifies a
    ensures Ascending(a[..])
    ensures multiset(a[..]) == multiset(old(a[..]))
  {
    var i := 0;
    while i < a.Length
      invariant 0 <= i <= a.Length
      invariant forall p, q :: 0 <= p < q < i ==> AtMost(a[p], a[q])
      invariant multiset(a[..]) == multiset(old(a[..]))
    {
      var j := i;
      while j > 0 && Below(a[j], a[j - 1])
        invariant 0 <= j <= i
        invariant forall p, q :: 0 <= p < q <= i && p != j && q != j ==> AtMost(a[p], a[q])
        invariant forall q :: j < q <= i ==> Below(a[j], a[q])
        invariant multiset(a[..]) == multiset(old(a[..]))
      {
        a[j - 1], a[j] := a[j], a[j - 1];
        j := j - 1;
      }
      if j > 0 {
        BelowTotal(a[j - 1], a[j]);
        forall p | 0 <= p < j - 1
          ensures AtMost(a[p], a[j])
        {
          AtMostTransitive(a[p], a[j - 1], a[j]);
        }
      }
      i := i + 1;
    }
  }

  /** A sorted list without repeats is strictly ascending. */
  lemma AscendingDistinct(s: seq<string>)
    requires Ascending(s)
    requires forall i, j :: 0 <= i < j < |s| ==> s[i] != s[j]
    ensures StrictlyAscending(s)
  {
  }

  // ---------------------------------------------------------------- the board

  /** One printed board: a directory and what `ForDir` gave for it. */
  datatype Panel = Panel(dir: string, tacks: seq<Tack>)

  /**
    * What the command shows: only the empty message, or the boards, the
    * "No stale TODOs" notice and the footer's three numbers.
    */
  datatype BoardView =
    | NoTacks
    | Boards(panels: seq<Panel>, noStaleNotice: bool, total: nat, dirCount: nat, openTodos: nat)

  function PanelDirs(ps: seq<Panel>): (ds: seq<string>)
    ensures |ds| == |ps| && forall i :: 0 <= i < |ps| ==> ds[i] == ps[i].dir
  {
    if ps == [] then [] else PanelDirs(ps[..|ps| - 1]) + [ps[|ps| - 1].dir]
  }

  lemma PanelDirsConcat(a: seq<Panel>, b: seq<Panel>)
    ensures PanelDirs(a + b) == PanelDirs(a) + PanelDirs(b)
  {
  }

  /** Whether a directory gets a board: always, or with `--stale` only when it holds a stale todo. */
  predicate Shown(m: Table, dir: string, staleFlag: bool, threshold: int, now: Time) {
    !staleFlag || HasStale(Owned(ListAt(m, dir), dir), now, threshold)
  }

  /** The part of the table under `keys`. */
  function Restrict(m: Table, keys: set<string>): (r: Table)
    ensures r.Keys == m.Keys * keys
  {
    map d | d in keys && d in m :: m[d]
  }

  /** Taking one key out of the part being summed moves its list's count out of the sum. */
  lemma RestrictStep(m: Table, rest: set<string>, dir: string)
    requires dir in rest && rest <= m.Keys
    ensures OpenTodos(Restrict(m, rest)) == OpenTodoCount(m[dir]) + OpenTodos(Restrict(m, rest - {dir}))
  {
    SumOverSplit(Restrict(m, rest), OpenTodoCount, dir);
    assert Restrict(m, rest) - {dir} == Restrict(m, rest - {dir});
  }

  /** The footer's inner loop over one list. */
  method CountListOpenTodos(list: seq<Tack>) returns (n: nat)
    ensures n == OpenTodoCount(list)
  {
    n := 0;
    for i := 0 to |list|
      invariant n == OpenTodoCount(list[..i])
    {
      assert list[..i + 1][..i] == list[..i];
      if list[i].kind == KindTodo && !list[i].done {
        n := n + 1;
      }
    }
    assert list[..|list|] == list;
  }

  /** The footer's open-todo loop, over the lists in no particular key order. */
  method CountOpenTodos(m: Table) returns (openTodos: nat)
    ensures openTodos == OpenTodos(m)
  {
    openTodos := 0;
    var rest := m.Keys;
    assert Restrict(m, rest) == m;
    while rest != {}
      invariant rest <= m.Keys
      invariant openTodos + OpenTodos(Restrict(m, rest)) == OpenTodos(m)
      decreases rest
    {
      var dir :| dir in rest;
      RestrictStep(m, rest, dir);
      var n := CountListOpenTodos(m[dir]);
      openTodos := openTodos + n;
      rest := rest - {dir};
    }
    assert Restrict(m, rest) == map[];
  }

  /** The boards of the loop over `dirs`, in the order of `dirs`: one per shown directory. */
  function SelectedPanels(m: Table, dirs: seq<string>, staleFlag: bool, threshold: int, now: Time): (ps: seq<Panel>)
    ensures |ps| <= |dirs|
  {
    if dirs == [] then []
    else
      var dir := dirs[|dirs| - 1];
      SelectedPanels(m, dirs[..|dirs| - 1], staleFlag, threshold, now)
      + (if Shown(m, dir, staleFlag, threshold, now) then [Panel(dir, Owned(ListAt(m, dir), dir))] else [])
  }

  /** A directory has a board exactly when it is in `dirs` and is shown. */
  lemma {:induction false} SelectedPanelsMembers(m: Table, dirs: seq<string>, staleFlag: bool, threshold: int, now: Time)
    ensures forall d :: d in PanelDirs(SelectedPanels(m, dirs, staleFlag, threshold, now))
                    <==> d in dirs && Shown(m, d, staleFlag, threshold, now)
  {
    if dirs != [] {
      var init := dirs[..|dirs| - 1];
      var last := dirs[|dirs| - 1];
      SelectedPanelsMembers(m, init, staleFlag, threshold, now);
      assert dirs == init + [last];
      var extra := if Shown(m, last, staleFlag, threshold, now) then [Panel(last, Owned(ListAt(m, last), last))] else [];
      PanelDirsConcat(SelectedPanels(m, init, staleFlag, threshold, now), extra);
    }
  }

  /** Each board lists what `ForDir` gives for its directory. */
  lemma {:induction false} SelectedPanelsShowForDir(m: Table, dirs: seq<string>, staleFlag: bool, threshold: int, now: Time)
    ensures forall p :: p in SelectedPanels(m, dirs, staleFlag, threshold, now) ==> p.tacks == Owned(ListAt(m, p.dir), p.dir)
  {
    if dirs != [] {
      SelectedPanelsShowForDir(m, dirs[..|dirs| - 1], staleFlag, threshold, now);
    }
  }

  /** Appending a string above every element keeps a list strictly ascending. */
  lemma AscendingSnoc(s: seq<string>, last: string)
    requires StrictlyAscending(s)
    requires forall x :: x in s ==> Below(x, last)
    ensures StrictlyAscending(s + [last])
  {
    var s' := s + [last];
    forall i, j | 0 <= i < j < |s'|
      ensures Below(s'[i], s'[j])
    {
      if j == |s| {
        assert s'[i] in s;
      }
    }
  }

  /** Boards come out in the order of `dirs`, so sorted directories give sorted boards. */
  lemma {:induction false} SelectedPanelsAscending(m: Table, dirs: seq<string>, staleFlag: bool, threshold: int, now: Time)
    requires StrictlyAscending(dirs)
    ensures StrictlyAscending(PanelDirs(SelectedPanels(m, dirs, staleFlag, threshold, now)))
  {
    if dirs != [] {
      var init, last := dirs[..|dirs| - 1], dirs[|dirs| - 1];
      assert StrictlyAscending(init);
      SelectedPanelsAscending(m, init, staleFlag, threshold, now);
      var ps := SelectedPanels(m, init, staleFlag, threshold, now);
      if Shown(m, last, staleFlag, threshold, now) {
        SelectedPanelsMembers(m, init, staleFlag, threshold, now);
        forall x | x in PanelDirs(ps)
          ensures Below(x, last)
        {
          var k :| 0 <= k < |init| && init[k] == x;
          assert dirs[k] == x;
        }
        AscendingSnoc(PanelDirs(ps), last);
        PanelDirsConcat(ps, [Panel(last, Owned(ListAt(m, last), last))]);
      }
    }
  }

  /** Without `--stale` every directory gets a board. */
  lemma {:induction false} SelectedPanelsAll(m: Table, dirs: seq<string>, threshold: int, now: Time)
    ensures |SelectedPanels(m, dirs, false, threshold, now)| == |dirs|
  {
    if dirs != [] {
      SelectedPanelsAll(m, dirs[..|dirs| - 1], threshold, now);
    }
  }

  /** The loop over the sorted directories, with the `--stale` filter and `shown`. */
  method SelectPanels(s: Store, sorted: seq<string>, staleFlag: bool, threshold: int, now: Time)
    returns (panels: seq<Panel>, shown: nat)
    ensures panels == SelectedPanels(s.tacks, sorted, staleFlag, threshold, now)
    ensures shown == |panels|
  {
    panels, shown := [], 0;
    for k := 0 to |sorted|
      invariant panels == SelectedPanels(s.tacks, sorted[..k], staleFlag, threshold, now)
      invariant shown == |panels|
    {
      var dir := sorted[k];
      assert sorted[..k + 1][..k] == sorted[..k];
      var tacks := s.ForDir(dir);
      if staleFlag {
        var hasStale := AnyStale(tacks, now, threshold);
        if !hasStale {
          continue;
        }
      }
      panels := panels + [Panel(dir, tacks)];
      shown := shown + 1;
    }
    assert sorted[..|sorted|] == sorted;
  }

  /**
    * The board command after the store is loaded, for `--stale`, `--days`
    * and the current instant.
    */
  method RunBoard(s: Store, staleFlag: bool, staleDays: int, now: Time) returns (v: BoardView)
    requires MinInt64 <= staleDays <= MaxInt64
    ensures v.NoTacks? <==> s.tacks == map[]
    ensures v.Boards? ==>
      var dirs := PanelDirs(v.panels);
      && StrictlyAscending(dirs)
      && (forall d :: d in dirs <==> d in s.tacks && Shown(s.tacks, d, staleFlag, StaleThreshold(staleDays), now))
      && (forall p :: p in v.panels ==> p.tacks == Owned(ListAt(s.tacks, p.dir), p.dir))
      && (!staleFlag ==> |v.panels| == |s.tacks|)
      && (v.noStaleNotice <==> staleFlag && v.panels == [])
      && v.total == |s.tacks| && v.dirCount == |s.tacks|
      && v.openTodos == OpenTodos(s.tacks)
  {
    var dirs := s.AllDirs();
    AllDirsExactlyOnce(s.tacks, dirs);
    if |dirs| == 0 {
      assert s.tacks.Keys == {};
      return NoTacks;
    }

    var a := new string[|dirs|](i requires 0 <= i < |dirs| => dirs[i]);
    assert a[..] == dirs;
    SortStrings(a);
    var sorted := a[..];
    AllDirsExactlyOnce(s.tacks, sorted);
    AscendingDistinct(sorted);

    var threshold := StaleThreshold(staleDays);
    var panels, shown := SelectPanels(s, sorted, staleFlag, threshold, now);
    SelectedPanelsMembers(s.tacks, sorted, staleFlag, threshold, now);
    SelectedPanelsShowForDir(s.tacks, sorted, staleFlag, threshold, now);
    SelectedPanelsAscending(s.tacks, sorted, staleFlag, threshold, now);
    if !staleFlag {
      SelectedPanelsAll(s.tacks, sorted, threshold, now);
    }

    var noStaleNotice := shown == 0 && staleFlag;
    var total := |s.tacks|;
    var openTodos := CountOpenTodos(s.tacks);
    v := Boards(panels, noStaleNotice, total, |dirs|, openTodos);
  }
}
