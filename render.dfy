/**
  * The counting and plain-string parts of internal/ui/render.go: the count
  * summary, the one-line summary the shell hook prints, `plural` and
  * `shortenPath`. Styles are taken as the identity on strings.
  */
module Render {
  import opened Wrappers
  import opened TackModel

  /** The suffix after a count: none for exactly one. */
  function Plural(n: int): (r: string)
    ensures r == "" <==> n == 1
    ensures r == "" || r == "s"
  {
    if n == 1 then "" else "s"
  }

  function DigitChar(d: nat): (c: char)
    requires d < 10
    ensures '0' <= c <= '9'
  {
    ('0' as int + d) as char
  }

  /** `%d` of a count: digits only, and no leading zero unless the count is zero. */
  function Decimal(n: nat): (r: string)
    ensures |r| >= 1
    ensures forall i :: 0 <= i < |r| ==> '0' <= r[i] <= '9'
    ensures n > 0 ==> r[0] != '0'
    ensures n == 0 ==> r == "0"
  {
    if n < 10 then [DigitChar(n)] else Decimal(n / 10) + [DigitChar(n % 10)]
  }

  /** The number a string of decimal digits spells, most significant digit first. */
  function DigitsValue(s: string): nat
    requires forall i :: 0 <= i < |s| ==> '0' <= s[i] <= '9'
  {
    if s == [] then 0 else DigitsValue(s[..|s| - 1]) * 10 + (s[|s| - 1] as int - '0' as int)
  }

  /** The digits printed for a count spell that count. */
  lemma {:induction false} DecimalRoundTrip(n: nat)
    ensures DigitsValue(Decimal(n)) == n
  {
    if n >= 10 {
      DecimalRoundTrip(n / 10);
      var r := Decimal(n);
      assert r[..|r| - 1] == Decimal(n / 10);
    }
  }

  /** The summed lengths of `parts`. */
  function TotalLength(parts: seq<string>): nat {
    if parts == [] then 0 else |parts[0]| + TotalLength(parts[1..])
  }

  /**
    * `strings.Join`: the parts in order with `sep` between neighbours, so
    * nothing for no parts and the first part at the front otherwise.
    */
  function Join(parts: seq<string>, sep: string): (r: string)
    ensures parts == [] ==> r == ""
    ensures parts != [] ==> parts[0] <= r && |r| == TotalLength(parts) + (|parts| - 1) * |sep|
  {
    if parts == [] then ""
    else if |parts| == 1 then parts[0]
    else parts[0] + sep + Join(parts[1..], sep)
  }

  /** Appending one more part adds a separator and that part at the end. */
  lemma {:induction false} JoinSnoc(parts: seq<string>, p: string, sep: string)
    requires parts != []
    ensures Join(parts + [p], sep) == Join(parts, sep) + sep + p
  {
    if |parts| == 1 {
      assert (parts + [p])[1..] == [p];
    } else {
      assert (parts + [p])[1..] == parts[1..] + [p];
      JoinSnoc(parts[1..], p, sep);
    }
  }

  lemma JoinStartsWithFirst(parts: seq<string>, sep: string)
    requires parts != [] && parts[0] != []
    ensures Join(parts, sep) != [] && Join(parts, sep)[0] == parts[0][0]
  {
  }

  const Separator: string := " \U{00B7} "

  // ---------------------------------------------------------------- CountSummary

  /** The three counters of `CountSummary`. */
  datatype Counts = Counts(pins: nat, todos: nat, warns: nat)

  /** The tacks that are not done, counted by named kind; other kinds are skipped. */
  function OpenCounts(ts: seq<Tack>): Counts {
    if ts == [] then Counts(0, 0, 0)
    else
      var c, t := OpenCounts(ts[..|ts| - 1]), ts[|ts| - 1];
      if t.done then c
      else if t.kind == KindPin then c.(pins := c.pins + 1)
      else if t.kind == KindTodo then c.(todos := c.todos + 1)
      else if t.kind == KindWarn then c.(warns := c.warns + 1)
      else c
  }

  function CountPhrase(n: nat, noun: string): string {
    Decimal(n) + " " + noun + Plural(n)
  }

  /** The non-zero counters as phrases, pins first, then todos, then warnings. */
  function SummaryParts(c: Counts): seq<string> {
    (if c.pins > 0 then [CountPhrase(c.pins, "pin")] else [])
    + (if c.todos > 0 then [CountPhrase(c.todos, "todo")] else [])
    + (if c.warns > 0 then [CountPhrase(c.warns, "warning")] else [])
  }

  function SummaryText(c: Counts): string {
    if SummaryParts(c) == [] then "all clear" else Join(SummaryParts(c), Separator)
  }

  method CountSummary(tacks: seq<Tack>) returns (r: string)
    ensures r == SummaryText(OpenCounts(tacks))
  {
    var pins: nat, todos: nat, warns: nat := 0, 0, 0;
    for i := 0 to |tacks|
      invariant Counts(pins, todos, warns) == OpenCounts(tacks[..i])
    {
      assert tacks[..i + 1][..i] == tacks[..i];
      var t := tacks[i];
      if t.done {
        continue;
      }
      if t.kind == KindPin {
        pins := pins + 1;
      } else if t.kind == KindTodo {
        todos := todos + 1;
      } else if t.kind == KindWarn {
        warns := warns + 1;
      }
    }
    assert tacks[..|tacks|] == tacks;

    var parts: seq<string> := [];
    if pins > 0 {
      parts := parts + [CountPhrase(pins, "pin")];
    }
    if todos > 0 {
      parts := parts + [CountPhrase(todos, "todo")];
    }
    if warns > 0 {
      parts := parts + [CountPhrase(warns, "warning")];
    }
    assert parts == SummaryParts(Counts(pins, todos, warns));
    if |parts| == 0 {
      return "all clear";
    }
    return Join(parts, Separator);
  }

  /** A tack that is done adds nothing to the summary, whatever its kind. */
  lemma OpenCountsIgnoresDone(ts: seq<Tack>, t: Tack)
    requires t.done
    ensures OpenCounts(ts + [t]) == OpenCounts(ts)
  {
    assert (ts + [t])[..|ts|] == ts;
  }

  /** The counters are all zero exactly when no tack is an open one of a named kind. */
  lemma {:induction false} OpenCountsZero(ts: seq<Tack>)
    ensures OpenCounts(ts) == Counts(0, 0, 0)
        <==> forall i :: 0 <= i < |ts| ==> ts[i].done || !IsNamedKind(ts[i].kind)
  {
    if ts != [] {
      var init := ts[..|ts| - 1];
      OpenCountsZero(init);
      assert forall i :: 0 <= i < |init| ==> init[i] == ts[i];
    }
  }

  lemma CountPhraseStartsWithDigit(n: nat, noun: string)
    ensures CountPhrase(n, noun) != [] && '0' <= CountPhrase(n, noun)[0] <= '9'
  {
    assert CountPhrase(n, noun)[0] == Decimal(n)[0];
  }

  /** A summary with something to report starts with a digit, so it is never "all clear". */
  lemma {:induction false} SummaryTextStartsWithDigit(c: Counts)
    requires SummaryParts(c) != []
    ensures SummaryText(c) != [] && '0' <= SummaryText(c)[0] <= '9'
  {
    var parts := SummaryParts(c);
    if c.pins > 0 {
      CountPhraseStartsWithDigit(c.pins, "pin");
    } else if c.todos > 0 {
      CountPhraseStartsWithDigit(c.todos, "todo");
    } else {
      CountPhraseStartsWithDigit(c.warns, "warning");
    }
    JoinStartsWithFirst(parts, Separator);
  }

  /** "all clear" is the answer exactly when nothing open of a named kind is left. */
  lemma AllClearIff(ts: seq<Tack>)
    ensures SummaryText(OpenCounts(ts)) == "all clear"
        <==> forall i :: 0 <= i < |ts| ==> ts[i].done || !IsNamedKind(ts[i].kind)
  {
    OpenCountsZero(ts);
    var c := OpenCounts(ts);
    if SummaryParts(c) != [] {
      SummaryTextStartsWithDigit(c);
      assert "all clear"[0] == 'a';
    }
  }

  /** Two pins, one todo and no warning read "2 pins · 1 todo". */
  lemma SummaryExample()
    ensures SummaryText(Counts(2, 1, 0)) == "2 pins \U{00B7} 1 todo"
  {
  }

  // ---------------------------------------------------------------- RenderQuietSummary

  /** The four counters of `RenderQuietSummary`. */
  datatype QuietCounts = QuietCounts(pins: nat, todos: nat, warns: nat, done: nat)

  /**
    * The first matching case wins: a done todo, a pin (done or not), an open
    * todo, a warning; a tack of any other kind is not counted.
    */
  function QuietTally(ts: seq<Tack>): QuietCounts {
    if ts == [] then QuietCounts(0, 0, 0, 0)
    else
      var c, t := QuietTally(ts[..|ts| - 1]), ts[|ts| - 1];
      if t.kind == KindTodo && t.done then c.(done := c.done + 1)
      else if t.kind == KindPin then c.(pins := c.pins + 1)
      else if t.kind == KindTodo then c.(todos := c.todos + 1)
      else if t.kind == KindWarn then c.(warns := c.warns + 1)
      else c
  }

  /** The number of tacks of a named kind. */
  function NamedCount(ts: seq<Tack>): (n: nat)
    ensures n <= |ts|
  {
    if ts == [] then 0
    else NamedCount(ts[..|ts| - 1]) + (if IsNamedKind(ts[|ts| - 1].kind) then 1 else 0)
  }

  const ClipboardEmoji: string := "\U{1F4CB}"

  function QuietParts(c: QuietCounts): seq<string> {
    (if c.pins > 0 then [PinEmoji + " " + Decimal(c.pins) + " note" + Plural(c.pins)] else [])
    + (if c.todos > 0 then [TodoEmoji + " " + Decimal(c.todos) + " todo" + Plural(c.todos)] else [])
    + (if c.warns > 0 then [WarnEmoji + "  " + Decimal(c.warns) + " warning" + Plural(c.warns)] else [])
    + (if c.done > 0 then [DoneEmoji() + " " + Decimal(c.done) + " done"] else [])
  }

  function QuietText(ts: seq<Tack>): string {
    if ts == [] then "" else ClipboardEmoji + " " + Join(QuietParts(QuietTally(ts)), Separator)
  }

  /** The counting loop of `RenderQuietSummary`. */
  method QuietCounters(tacks: seq<Tack>) returns (c: QuietCounts)
    ensures c == QuietTally(tacks)
  {
    var pins: nat, todos: nat, warns: nat, done: nat := 0, 0, 0, 0;
    for i := 0 to |tacks|
      invariant QuietCounts(pins, todos, warns, done) == QuietTally(tacks[..i])
    {
      assert tacks[..i + 1][..i] == tacks[..i];
      var t := tacks[i];
      if t.kind == KindTodo && t.done {
        done := done + 1;
      } else if t.kind == KindPin {
        pins := pins + 1;
      } else if t.kind == KindTodo {
        todos := todos + 1;
      } else if t.kind == KindWarn {
        warns := warns + 1;
      }
    }
    assert tacks[..|tacks|] == tacks;
    c := QuietCounts(pins, todos, warns, done);
  }

  method RenderQuietSummary(tacks: seq<Tack>) returns (r: string)
    ensures r == QuietText(tacks)
  {
    if |tacks| == 0 {
      return "";
    }
    var c := QuietCounters(tacks);
    var parts: seq<string> := [];
    if c.pins > 0 {
      parts := parts + [PinEmoji + " " + Decimal(c.pins) + " note" + Plural(c.pins)];
    }
    if c.todos > 0 {
      parts := parts + [TodoEmoji + " " + Decimal(c.todos) + " todo" + Plural(c.todos)];
    }
    if c.warns > 0 {
      parts := parts + [WarnEmoji + "  " + Decimal(c.warns) + " warning" + Plural(c.warns)];
    }
    if c.done > 0 {
      parts := parts + [DoneEmoji() + " " + Decimal(c.done) + " done"];
    }
    assert parts == QuietParts(c);
    return ClipboardEmoji + " " + Join(parts, Separator);
  }

  /** The hook's line is empty exactly for a directory without tacks. */
  lemma QuietEmptyIff(ts: seq<Tack>)
    ensures QuietText(ts) == "" <==> ts == []
  {
    if ts != [] {
      assert |QuietText(ts)| >= 2;
    }
  }

  /** Each tack of a named kind lands in exactly one of the four counters. */
  lemma {:induction false} QuietPartition(ts: seq<Tack>)
    ensures var c := QuietTally(ts); c.pins + c.todos + c.warns + c.done == NamedCount(ts)
  {
    if ts != [] {
      QuietPartition(ts[..|ts| - 1]);
    }
  }

  /** A pin counts as a pin whether or not it is marked done. */
  lemma QuietCountsDonePins(ts: seq<Tack>, t: Tack)
    requires t.kind == KindPin
    ensures QuietTally(ts + [t]) == QuietTally(ts).(pins := QuietTally(ts).pins + 1)
  {
    assert (ts + [t])[..|ts|] == ts;
  }

  /** Tacks of unknown kinds only: the line is the clipboard alone, not empty. */
  lemma {:induction false} QuietUnknownKindsOnly(ts: seq<Tack>)
    requires ts != []
    requires forall i :: 0 <= i < |ts| ==> !IsNamedKind(ts[i].kind)
    ensures QuietTally(ts) == QuietCounts(0, 0, 0, 0)
    ensures QuietText(ts) == ClipboardEmoji + " "
  {
    var init := ts[..|ts| - 1];
    if init != [] {
      QuietUnknownKindsOnly(init);
    }
  }

  // ---------------------------------------------------------------- shortenPath

  /**
    * A leading home directory becomes "~"; `home` is `None` when the home
    * directory cannot be found. The test is a plain string prefix.
    */
  function ShortenPath(dir: string, home: Option<string>): (r: string)
    ensures r == dir || (|r| >= 1 && r[0] == '~')
    ensures home.Some? && home.value <= dir ==> |r| >= 1 && r[0] == '~' && ExpandHome(r, home.value) == dir
    ensures !(home.Some? && home.value <= dir) ==> r == dir
  {
    if home.Some? && home.value <= dir then "~" + dir[|home.value|..] else dir
  }

  /** The inverse of `ShortenPath`: a leading "~" becomes the home directory. */
  function ExpandHome(short: string, home: string): string {
    if |short| >= 1 && short[0] == '~' then home + short[1..] else short
  }

  /** Shortening can be undone unless the path itself began with "~". */
  lemma ShortenRoundTrip(dir: string, home: string)
    requires home <= dir || dir == [] || dir[0] != '~'
    ensures ExpandHome(ShortenPath(dir, Some(home)), home) == dir
  {
    if home <= dir {
      assert dir == home + dir[|home|..];
    }
  }

  /** A path that only starts with the characters of home is shortened too. */
  lemma ShortenRawPrefix()
    ensures ShortenPath("/home/al2", Some("/home/al")) == "~2"
  {
  }

  lemma ShortenWithoutHome(dir: string)
    ensures ShortenPath(dir, None) == dir
  {
  }
}
