/**
  * The tack record (internal/model/tack.go): its kinds, the emoji shown for
  * them, the short hexadecimal id and the JSON object a tack is saved as.
  */
module TackModel {
  import opened Wrappers

  newtype byte = x: int | 0 <= x < 256

  /** A kind is a Go string type, so any string read back from the file is a kind. */
  type TackKind = string

  const KindPin: TackKind := "pin"
  const KindTodo: TackKind := "todo"
  const KindWarn: TackKind := "warn"

  /** The three kinds the program names; anything else only arrives from an edited file. */
  predicate IsNamedKind(k: TackKind) {
    k == KindPin || k == KindTodo || k == KindWarn
  }

  /** Instants and durations are nanoseconds on one time line. */
  type Time = int

  /**
    * One annotation. `dir` is the directory it was added in; it is not part of
    * the saved form, so a tack read back from the file has `dir == ""`.
    * `doneAt` is Go's nil-able `*time.Time`.
    */
  datatype Tack = Tack(
    id: string,
    kind: TackKind,
    message: string,
    dir: string,
    done: bool,
    createdAt: Time,
    doneAt: Option<Time>)

  /** A todo that has not been marked done. */
  predicate IsOpenTodo(t: Tack) {
    t.kind == KindTodo && !t.done
  }

  lemma NamedKindsDistinct()
    ensures KindPin != KindTodo && KindTodo != KindWarn && KindPin != KindWarn
  {
  }

  // ---------------------------------------------------------------- emoji

  const PinEmoji: string := "\U{1F4CC}"
  const TodoEmoji: string := "\U{2610}"
  const WarnEmoji: string := "\U{26A0}\U{FE0F}"
  const OtherEmoji: string := "\U{2022}"

  /** The emoji shown in front of a tack of kind `k`. */
  function Emoji(k: TackKind): (r: string)
    ensures r == OtherEmoji <==> !IsNamedKind(k)
    ensures r != DoneEmoji()
  {
    if k == KindPin then PinEmoji
    else if k == KindTodo then TodoEmoji
    else if k == KindWarn then WarnEmoji
    else OtherEmoji
  }

  /** The emoji of a completed todo: a ticked box, never one of the kind emoji. */
  function DoneEmoji(): (r: string)
    ensures r != PinEmoji && r != TodoEmoji && r != WarnEmoji && r != OtherEmoji
  {
    "\U{2611}"
  }

  lemma EmojiInjectiveOnNamedKinds(k1: TackKind, k2: TackKind)
    requires IsNamedKind(k1) && IsNamedKind(k2)
    ensures Emoji(k1) == Emoji(k2) <==> k1 == k2
  {
  }

  // ---------------------------------------------------------------- ids

  /** Lower-case hexadecimal digits, as Go's encoding/hex writes them. */
  predicate IsHexDigit(c: char) {
    ('0' <= c <= '9') || ('a' <= c <= 'f')
  }

  function HexDigit(n: nat): (c: char)
    requires n < 16
    ensures IsHexDigit(c)
  {
    if n < 10 then ('0' as int + n) as char else ('a' as int + n - 10) as char
  }

  function HexValue(c: char): (n: nat)
    requires IsHexDigit(c)
    ensures n < 16 && HexDigit(n) == c
  {
    if c <= '9' then c as int - '0' as int else c as int - 'a' as int + 10
  }

  /** Two digits per byte, high nibble first. */
  function HexEncode(bs: seq<byte>): (s: string)
    ensures |s| == 2 * |bs|
    ensures forall i :: 0 <= i < |s| ==> IsHexDigit(s[i])
  {
    if bs == [] then ""
    else [HexDigit(bs[0] as int / 16), HexDigit(bs[0] as int % 16)] + HexEncode(bs[1..])
  }

  /** The inverse of `HexEncode`, used to show that distinct bytes give distinct ids. */
  function HexDecode(s: string): (bs: seq<byte>)
    requires |s| % 2 == 0
    requires forall i :: 0 <= i < |s| ==> IsHexDigit(s[i])
    ensures |bs| == |s| / 2
  {
    if s == [] then []
    else [(HexValue(s[0]) * 16 + HexValue(s[1])) as byte] + HexDecode(s[2..])
  }

  lemma {:induction false} HexRoundTrip(bs: seq<byte>)
    ensures HexDecode(HexEncode(bs)) == bs
  {
    if bs != [] {
      var s := HexEncode(bs);
      assert s[2..] == HexEncode(bs[1..]);
      HexRoundTrip(bs[1..]);
      var b := bs[0] as int;
      assert HexValue(s[0]) == b / 16 && HexValue(s[1]) == b % 16;
    }
  }

  /**
    * The id of a new tack, from the two random bytes it is drawn from:
    * four lower-case hexadecimal digits.
    */
  function NewID(hi: byte, lo: byte): (id: string)
    ensures |id| == 4
    ensures forall i :: 0 <= i < |id| ==> IsHexDigit(id[i])
  {
    HexEncode([hi, lo])
  }

  /** Distinct byte pairs give distinct ids: the id space has 256 * 256 members. */
  lemma NewIDInjective(hi1: byte, lo1: byte, hi2: byte, lo2: byte)
    ensures NewID(hi1, lo1) == NewID(hi2, lo2) <==> hi1 == hi2 && lo1 == lo2
  {
    if NewID(hi1, lo1) == NewID(hi2, lo2) {
      HexRoundTrip([hi1, lo1]);
      HexRoundTrip([hi2, lo2]);
    }
  }

  // ---------------------------------------------------------------- saved form

  /** A JSON value as the file holds it; times stand for their RFC 3339 text. */
  datatype Json = JString(str: string) | JBool(flag: bool) | JTime(at: Time)

  type JsonObject = map<string, Json>

  /** The keys the struct tags allow; there is no key for the directory. */
  const FieldNames: set<string> := {"id", "kind", "message", "done", "created_at", "done_at"}

  /** `json.Marshal` of one tack: `dir` is skipped, `done` and `done_at` only when set. */
  function Marshal(t: Tack): (o: JsonObject)
    ensures o.Keys <= FieldNames
    ensures "id" in o && "kind" in o && "message" in o && "created_at" in o
    ensures "done" in o <==> t.done
    ensures "done_at" in o <==> t.doneAt.Some?
  {
    var base := map["id" := JString(t.id), "kind" := JString(t.kind),
                    "message" := JString(t.message), "created_at" := JTime(t.createdAt)];
    var withDone := if t.done then base["done" := JBool(true)] else base;
    if t.doneAt.Some? then withDone["done_at" := JTime(t.doneAt.value)] else withDone
  }

  function StringField(o: JsonObject, key: string): string {
    if key in o && o[key].JString? then o[key].str else ""
  }

  function TimeField(o: JsonObject, key: string): Option<Time> {
    if key in o && o[key].JTime? then Some(o[key].at) else None
  }

  /**
    * `json.Unmarshal` of one tack: a missing field keeps Go's zero value, and
    * the directory is never filled in.
    */
  function Unmarshal(o: JsonObject): (t: Tack)
    ensures t.dir == ""
  {
    var created := TimeField(o, "created_at");
    Tack(StringField(o, "id"), StringField(o, "kind"), StringField(o, "message"), "",
         "done" in o && o["done"] == JBool(true),
         if created.Some? then created.value else 0,
         TimeField(o, "done_at"))
  }

  /** Saving and reading back a tack gives it back, except that its directory is lost. */
  lemma MarshalRoundTrip(t: Tack)
    ensures Unmarshal(Marshal(t)) == t.(dir := "")
  {
  }

  /** The directory has no influence on the saved form. */
  lemma MarshalIgnoresDir(t: Tack, d: string)
    ensures Marshal(t.(dir := d)) == Marshal(t)
  {
  }
}
