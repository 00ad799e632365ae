/**
 JSON values, the canonical printer and the strict reader's grammar.

 The grammar is a function on suffixes: each Parse function takes the text that is left
 and returns a value with the text after it.  StrictJson.dfy holds the reader itself, a
 cursor moved by loops, proved against these functions.
 */
module Json {
  import opened Strings
  import opened Wrappers

  /** `Object` lists the own properties in insertion order; `Undefined` may be a property value. */
  datatype Json =
    | Undefined
    | Null
    | Bool(b: bool)
    | Number(n: int)
    | String(s: Text)
    | Array(items: seq<Json>)
    | Object(members: seq<Member>)

  datatype Member = Member(key: Text, value: Json)

  const QUOTE: CodeUnit := 0x22
  const BACKSLASH: CodeUnit := 0x5c
  const COMMA: CodeUnit := 0x2c
  const COLON: CodeUnit := 0x3a
  const MINUS: CodeUnit := 0x2d
  const OPEN_BRACE: CodeUnit := 0x7b
  const CLOSE_BRACE: CodeUnit := 0x7d
  const OPEN_BRACKET: CodeUnit := 0x5b
  const CLOSE_BRACKET: CodeUnit := 0x5d

  const TRUE: Text := [0x74, 0x72, 0x75, 0x65]
  const FALSE: Text := [0x66, 0x61, 0x6c, 0x73, 0x65]
  const NULL: Text := [0x6e, 0x75, 0x6c, 0x6c]

  // ---------------------------------------------------------------- printing

  function Digits(n: nat): (t: Text)
    ensures |t| > 0 && forall i | 0 <= i < |t| :: IsDigit(t[i])
    ensures t[0] == 0x30 ==> n == 0
    ensures n == 0 ==> t == [0x30]
  {
    if n < 10 then [0x30 + n] else Digits(n / 10) + [0x30 + n % 10]
  }

  function PrintNumber(n: int): Text {
    if n < 0 then [MINUS] + Digits(-n) else Digits(n)
  }

  function HexDigit(d: int): CodeUnit {
    if d < 10 then 0x30 + d else 0x57 + d
  }

  function UnicodeEscape(c: CodeUnit): Text {
    [BACKSLASH, 0x75, HexDigit(c / 0x1000 % 16), HexDigit(c / 0x100 % 16), HexDigit(c / 16 % 16), HexDigit(c % 16)]
  }

  /** How JSON.stringify writes one code unit that is not half of a surrogate pair. */
  function EscapeUnit(c: CodeUnit): Text {
    if c == QUOTE || c == BACKSLASH then [BACKSLASH, c]
    else if c == 0x08 then [BACKSLASH, 0x62]
    else if c == 0x0c then [BACKSLASH, 0x66]
    else if c == 0x0a then [BACKSLASH, 0x6e]
    else if c == 0x0d then [BACKSLASH, 0x72]
    else if c == 0x09 then [BACKSLASH, 0x74]
    else if c < 0x20 || IsHigh(c) || IsLow(c) then UnicodeEscape(c)
    else [c]
  }

  /** A surrogate pair is written as it is, two code units at once. */
  function ChunkSize(s: Text): nat {
    if StartsWithPair(s) then 2 else 1
  }

  function Chunk(s: Text): Text
    requires |s| > 0
  {
    if StartsWithPair(s) then s[..2] else EscapeUnit(s[0])
  }

  function Escape(s: Text): Text {
    if |s| == 0 then [] else Chunk(s) + Escape(s[ChunkSize(s)..])
  }

  function Quote(s: Text): Text {
    [QUOTE] + Escape(s) + [QUOTE]
  }

  /** The text of a value with no undefined part, properties in the order listed. */
  function Print(v: Json): Text
    decreases v
  {
    match v
    case Undefined => []
    case Null => NULL
    case Bool(b) => if b then TRUE else FALSE
    case Number(n) => PrintNumber(n)
    case String(s) => Quote(s)
    case Array(items) => [OPEN_BRACKET] + PrintItems(items) + [CLOSE_BRACKET]
    case Object(members) => [OPEN_BRACE] + PrintMembers(members) + [CLOSE_BRACE]
  }

  function PrintItems(items: seq<Json>): Text
    decreases items
  {
    if |items| == 0 then []
    else if |items| == 1 then Print(items[0])
    else Print(items[0]) + [COMMA] + PrintItems(items[1..])
  }

  function PrintMembers(members: seq<Member>): Text
    decreases members
  {
    if |members| == 0 then []
    else
      var head := Quote(members[0].key) + [COLON] + Print(members[0].value);
      if |members| == 1 then head else head + [COMMA] + PrintMembers(members[1..])
  }

  // ------------------------------------------------------- the canonical form

  /** The entries whose value is not undefined, in order. */
  function Live(members: seq<Member>): (r: seq<Member>)
    ensures forall m :: m in r <==> m in members && m.value != Undefined
  {
    if |members| == 0 then []
    else if members[0].value == Undefined then Live(members[1..])
    else [members[0]] + Live(members[1..])
  }

  function Insert(m: Member, sorted: seq<Member>): (r: seq<Member>)
    ensures forall x :: x in r <==> x == m || x in sorted
    ensures |r| == |sorted| + 1
  {
    if |sorted| == 0 || Less(m.key, sorted[0].key) then [m] + sorted
    else [sorted[0]] + Insert(m, sorted[1..])
  }

  function SortByKey(members: seq<Member>): (r: seq<Member>)
    ensures forall x :: x in r <==> x in members
    ensures |r| == |members|
  {
    if |members| == 0 then [] else Insert(members[0], SortByKey(members[1..]))
  }

  /** `canonical`: None where it throws. */
  function Canonical(v: Json): Option<Text>
    decreases v
  {
    match v
    case Undefined => None
    case Number(n) => if IsSafeInteger(n) then Some(PrintNumber(n)) else None
    case Array(items) =>
      var body :- CanonicalItems(items);
      Some([OPEN_BRACKET] + body + [CLOSE_BRACKET])
    case Object(members) =>
      var body :- CanonicalMembers(v, SortByKey(Live(members)));
      Some([OPEN_BRACE] + body + [CLOSE_BRACE])
    case _ => Some(Print(v))
  }

  function CanonicalItems(items: seq<Json>): Option<Text>
    decreases items
  {
    if |items| == 0 then Some([])
    else
      var head :- Canonical(items[0]);
      var rest :- CanonicalItems(items[1..]);
      Some(if |items| == 1 then head else head + [COMMA] + rest)
  }

  function CanonicalMembers(owner: Json, members: seq<Member>): Option<Text>
    requires forall m | m in members :: m.value < owner
    decreases owner, |members|
  {
    if |members| == 0 then Some([])
    else
      assert members[0] in members;
      var value :- Canonical(members[0].value);
      var rest :- CanonicalMembers(owner, members[1..]);
      var head := Quote(members[0].key) + [COLON] + value;
      Some(if |members| == 1 then head else head + [COMMA] + rest)
  }

  /** The value the canonical text denotes: undefined properties gone, keys sorted, at every level. */
  function Norm(v: Json): Json
    decreases v
  {
    match v
    case Array(items) => Array(NormItems(items))
    case Object(members) => Object(NormMembers(v, SortByKey(Live(members))))
    case _ => v
  }

  function NormItems(items: seq<Json>): (r: seq<Json>)
    ensures |r| == |items|
    ensures forall i | 0 <= i < |items| :: r[i] == Norm(items[i])
    decreases items
  {
    if |items| == 0 then [] else [Norm(items[0])] + NormItems(items[1..])
  }

  function NormMembers(owner: Json, members: seq<Member>): (r: seq<Member>)
    requires forall m | m in members :: m.value < owner
    ensures |r| == |members|
    ensures forall i | 0 <= i < |members| :: r[i] == Member(members[i].key, Norm(members[i].value))
    decreases owner, |members|
  {
    if |members| == 0 then []
    else
      assert members[0] in members;
      [Member(members[0].key, Norm(members[0].value))] + NormMembers(owner, members[1..])
  }

  /** The values `canonical` accepts: no undefined item, every number a safe integer. */
  predicate Printable(v: Json)
    decreases v
  {
    match v
    case Undefined => false
    case Number(n) => IsSafeInteger(n)
    case Array(items) => forall item | item in items :: Printable(item)
    case Object(members) => forall m | m in members :: m.value == Undefined || Printable(m.value)
    case _ => true
  }

  predicate DistinctKeys(members: seq<Member>) {
    forall i, j | 0 <= i < j < |members| :: members[i].key != members[j].key
  }

  /** What every value of the language satisfies: strings of code units, no object with a key twice. */
  predicate WellFormed(v: Json)
    decreases v
  {
    match v
    case String(s) => Units(s)
    case Array(items) => forall item | item in items :: WellFormed(item)
    case Object(members) =>
      DistinctKeys(members) && forall m | m in members :: Units(m.key) && WellFormed(m.value)
    case _ => true
  }

  /** A well-formed printable value with no undefined part, so that Print loses nothing. */
  predicate Clean(v: Json)
    decreases v
  {
    match v
    case Undefined => false
    case Number(n) => IsSafeInteger(n)
    case String(s) => Units(s)
    case Array(items) => forall item | item in items :: Clean(item)
    case Object(members) =>
      DistinctKeys(members) && forall m | m in members :: Units(m.key) && Clean(m.value)
    case _ => true
  }

  // ------------------------------------------------------------- the grammar

  /** The reader is `Bounded(12, 256)`: it limits nesting and array length and refuses control
      characters and prototype keys.  `Unbounded` is the bare grammar. */
  datatype Limits = Bounded(depth: int, items: nat) | Unbounded {
    predicate TooDeep(d: int) { Bounded? && d > depth }

    predicate TooMany(n: nat) { Bounded? && n > items }

    predicate RefusesText(s: Text) { Bounded? && HasControl(s) }

    predicate RefusesKey(key: Text) { Bounded? && UnsafeKey(key) }
  }

  const READER_LIMITS := Bounded(12, 256)

  /** A value read and the text after it, or a thrown error. */
  datatype Parsed<+T> = Fail | Done(value: T, rest: Text) {
    predicate IsFailure() { Fail? }

    function PropagateFailure<U>(): Parsed<U>
      requires Fail?
    {
      Fail
    }

    function Extract(): (T, Text)
      requires Done?
    {
      (value, rest)
    }
  }

  /** `\s` in Unicode mode. */
  predicate IsSpace(c: CodeUnit) {
    || 0x09 <= c <= 0x0d || c == 0x20 || c == 0xa0 || c == 0x1680 || 0x2000 <= c <= 0x200a
    || c == 0x2028 || c == 0x2029 || c == 0x202f || c == 0x205f || c == 0x3000 || c == 0xfeff
  }

  function SkipSpace(t: Text): (r: Text)
    ensures |r| <= |t|
    ensures r == t[|t| - |r|..]
    ensures |r| > 0 ==> !IsSpace(r[0])
  {
    if |t| > 0 && IsSpace(t[0]) then SkipSpace(t[1..]) else t
  }

  predicate StartsWith(t: Text, word: Text) {
    |word| <= |t| && t[..|word|] == word
  }

  /** Number(...) of a literal with a fraction or an exponent, when it is a safe integer. */
  type Rounding = Text -> Option<int>

  function DigitRun(t: Text): (k: nat)
    ensures k <= |t|
    ensures forall i | 0 <= i < k :: IsDigit(t[i])
    ensures k < |t| ==> !IsDigit(t[k])
  {
    if |t| > 0 && IsDigit(t[0]) then 1 + DigitRun(t[1..]) else 0
  }

  /** The number a run of digits denotes. */
  function DecimalValue(t: Text): int {
    if |t| == 0 then 0 else 10 * DecimalValue(t[..|t| - 1]) + t[|t| - 1] - 0x30
  }

  /** The length of `(?:\.\d+)?` at the front of t. */
  function FractionLength(t: Text): (k: nat)
    ensures k <= |t|
  {
    if |t| > 0 && t[0] == 0x2e && DigitRun(t[1..]) > 0 then 1 + DigitRun(t[1..]) else 0
  }

  /** The length of `(?:[eE][+-]?\d+)?` at the front of t. */
  function ExponentLength(t: Text): (k: nat)
    ensures k <= |t|
  {
    if |t| == 0 || (t[0] != 0x65 && t[0] != 0x45) then 0
    else
      var sign := if |t| > 1 && (t[1] == 0x2b || t[1] == MINUS) then 1 else 0;
      var run := DigitRun(t[1 + sign..]);
      if run == 0 then 0 else 1 + sign + run
  }

  /** The length of `-?(?:0|[1-9]\d*)` at the front of t, 0 when it does not match. */
  function IntegerLength(t: Text): (k: nat)
    ensures k <= |t|
  {
    var sign := if |t| > 0 && t[0] == MINUS then 1 else 0;
    var run := DigitRun(t[sign..]);
    if run == 0 then 0 else if t[sign] == 0x30 then sign + 1 else sign + run
  }

  function IntegerValue(t: Text): int {
    if |t| > 0 && t[0] == MINUS then -DecimalValue(t[1..]) else DecimalValue(t)
  }

  function ParseNumber(t: Text, rounding: Rounding): (r: Parsed<Json>)
    ensures r.Done? ==> |r.rest| < |t| && r.rest == t[|t| - |r.rest|..]
  {
    var whole := IntegerLength(t);
    var fraction := FractionLength(t[whole..]);
    var end := whole + fraction + ExponentLength(t[whole + fraction..]);
    if whole == 0 then Fail
    else
      var n := if end == whole then Some(IntegerValue(t[..end])) else rounding(t[..end]);
      if n.Some? && IsSafeInteger(n.value) then Done(Number(n.value), t[end..]) else Fail
  }

  function Shift(r: Option<nat>, n: nat): Option<nat> {
    match r case Some(k) => Some(k + n) case None => None
  }

  /** How many code units the scan takes through the closing quote, or None where it throws. */
  function ScanString(t: Text, escaped: bool): (r: Option<nat>)
    ensures r.Some? ==> 0 < r.value <= |t| && t[r.value - 1] == QUOTE
  {
    if |t| == 0 then None
    else if escaped then
      var k :- ScanString(t[1..], false); Some(1 + k)
    else if t[0] == BACKSLASH then
      var k :- ScanString(t[1..], true); Some(1 + k)
    else if t[0] == QUOTE then Some(1)
    else if t[0] < 0x20 then None
    else
      var k :- ScanString(t[1..], false); Some(1 + k)
  }

  function HexValue(c: CodeUnit): Option<nat> {
    if IsDigit(c) then Some(c - 0x30)
    else if 0x61 <= c <= 0x66 then Some(c - 0x57)
    else if 0x41 <= c <= 0x46 then Some(c - 0x37)
    else None
  }

  function SimpleEscape(c: CodeUnit): Option<CodeUnit> {
    if c == QUOTE || c == BACKSLASH || c == 0x2f then Some(c)
    else if c == 0x62 then Some(0x08)
    else if c == 0x66 then Some(0x0c)
    else if c == 0x6e then Some(0x0a)
    else if c == 0x72 then Some(0x0d)
    else if c == 0x74 then Some(0x09)
    else None
  }

  /** JSON.parse of the characters between the quotes of a string literal. */
  function Unescape(t: Text): Option<Text> {
    if |t| == 0 then Some([])
    else if t[0] == QUOTE || t[0] < 0x20 then None
    else if t[0] != BACKSLASH then
      var rest :- Unescape(t[1..]); Some([t[0]] + rest)
    else if |t| < 2 then None
    else if t[1] == 0x75 then
      if |t| < 6 then None
      else
        var a :- HexValue(t[2]);
        var b :- HexValue(t[3]);
        var c :- HexValue(t[4]);
        var d :- HexValue(t[5]);
        var rest :- Unescape(t[6..]);
        Some([a * 0x1000 + b * 0x100 + c * 16 + d] + rest)
    else
      var c :- SimpleEscape(t[1]);
      var rest :- Unescape(t[2..]);
      Some([c] + rest)
  }

  /** Reads a string literal; t begins with its quote. */
  function ParseString(t: Text, limits: Limits): (r: Parsed<Text>)
    requires |t| > 0
    ensures r.Done? ==> |r.rest| < |t|
  {
    match ScanString(t[1..], false)
    case None => Fail
    case Some(k) =>
      match Unescape(t[1..k])
      case None => Fail
      case Some(s) => if limits.RefusesText(s) then Fail else Done(s, t[k + 1..])
  }

  /** The keys an object inherits from its prototype chain. */
  predicate UnsafeKey(key: Text) {
    key == Ascii("__proto__") || key == Ascii("constructor") || key == Ascii("prototype")
  }

  predicate HasKey(members: seq<Member>, key: Text) {
    exists m | m in members :: m.key == key
  }

  function ParseValue(t: Text, depth: int, limits: Limits, rounding: Rounding): (r: Parsed<Json>)
    ensures r.Done? ==> |r.rest| < |t|
    decreases |t|, 3
  {
    if limits.TooDeep(depth) then Fail
    else
      var u := SkipSpace(t);
      if |u| == 0 then ParseScalar(u, rounding)
      else if u[0] == OPEN_BRACE then ParseObject(u[1..], depth + 1, limits, rounding)
      else if u[0] == OPEN_BRACKET then ParseArray(u[1..], depth + 1, limits, rounding)
      else if u[0] == QUOTE then
        var (s, rest) :- ParseString(u, limits);
        Done(String(s), rest)
      else ParseScalar(u, rounding)
  }

  function ParseScalar(t: Text, rounding: Rounding): (r: Parsed<Json>)
    ensures r.Done? ==> |r.rest| < |t|
  {
    if StartsWith(t, TRUE) then Done(Bool(true), t[4..])
    else if StartsWith(t, FALSE) then Done(Bool(false), t[5..])
    else if StartsWith(t, NULL) then Done(Null, t[4..])
    else ParseNumber(t, rounding)
  }

  function ParseObject(t: Text, depth: int, limits: Limits, rounding: Rounding): (r: Parsed<Json>)
    ensures r.Done? ==> |r.rest| < |t|
    decreases |t|, 2
  {
    var u := SkipSpace(t);
    if |u| > 0 && u[0] == CLOSE_BRACE then Done(Object([]), u[1..])
    else ParseMembers(u, depth, limits, rounding, [])
  }

  /** A property name, its colon and its value; `acc` holds the properties read so far. */
  function ParseMember(t: Text, depth: int, limits: Limits, rounding: Rounding, acc: seq<Member>): (r: Parsed<Member>)
    ensures r.Done? ==> |r.rest| < |t|
    decreases |t|, 0
  {
    var u := SkipSpace(t);
    if |u| == 0 || u[0] != QUOTE then Fail
    else
      var (key, afterKey) :- ParseString(u, limits);
      if HasKey(acc, key) || limits.RefusesKey(key) then Fail
      else
        var w := SkipSpace(afterKey);
        if |w| == 0 || w[0] != COLON then Fail
        else
          var (value, afterValue) :- ParseValue(w[1..], depth, limits, rounding);
          Done(Member(key, value), afterValue)
  }

  /** The loop of `object`. */
  function ParseMembers(t: Text, depth: int, limits: Limits, rounding: Rounding, acc: seq<Member>): (r: Parsed<Json>)
    ensures r.Done? ==> |r.rest| < |t|
    decreases |t|, 1
  {
    var (m, afterMember) :- ParseMember(t, depth, limits, rounding, acc);
    var x := SkipSpace(afterMember);
    if |x| == 0 then Fail
    else if x[0] == CLOSE_BRACE then Done(Object(acc + [m]), x[1..])
    else if x[0] != COMMA then Fail
    else ParseMembers(x[1..], depth, limits, rounding, acc + [m])
  }

  function ParseArray(t: Text, depth: int, limits: Limits, rounding: Rounding): (r: Parsed<Json>)
    ensures r.Done? ==> |r.rest| < |t|
    decreases |t|, 5
  {
    var u := SkipSpace(t);
    if |u| > 0 && u[0] == CLOSE_BRACKET then Done(Array([]), u[1..])
    else ParseItems(u, depth, limits, rounding, [])
  }

  /** The loop of `array`: `acc` holds the items read so far. */
  function ParseItems(t: Text, depth: int, limits: Limits, rounding: Rounding, acc: seq<Json>): (r: Parsed<Json>)
    ensures r.Done? ==> |r.rest| < |t|
    decreases |t|, 4
  {
    var (value, afterValue) :- ParseValue(t, depth, limits, rounding);
    if limits.TooMany(|acc| + 1) then Fail
    else
      var x := SkipSpace(afterValue);
      if |x| == 0 then Fail
      else if x[0] == CLOSE_BRACKET then Done(Array(acc + [value]), x[1..])
      else if x[0] != COMMA then Fail
      else ParseItems(x[1..], depth, limits, rounding, acc + [value])
  }

  function Parse(t: Text, limits: Limits, rounding: Rounding): Option<Json> {
    match ParseValue(t, 0, limits, rounding)
    case Fail => None
    case Done(v, rest) => if |SkipSpace(rest)| == 0 then Some(v) else None
  }
}
