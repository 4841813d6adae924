/**
 Event queries of rpc/src/query.rs: their printed form, and the parsing
 expression grammar that reads it.  Each rule is a function from the text to
 the value and the text behind it; alternatives are tried in the source's order.
 */
module QueryGrammar {
  import opened Common

  type I64 = i: int | -0x8000_0000_0000_0000 <= i <= I64_MAX

  /** Floats, dates and times are values of other libraries, known here by a code. */
  datatype Operand =
    | Text(text: string)
    | Signed(i: I64)
    | Unsigned(u: U64)
    | Float(code: int)
    | Date(code: int)
    | DateTime(code: int)

  datatype Operation =
    | Eq(operand: Operand)
    | Lt(operand: Operand)
    | Lte(operand: Operand)
    | Gt(operand: Operand)
    | Gte(operand: Operand)
    | Contains(text: string)
    | Exists

  datatype Condition = Condition(key: string, operation: Operation)

  datatype EventType = NewBlock | Tx

  datatype Query = Query(eventType: Option<EventType>, conditions: seq<Condition>)

  /** How the libraries read and print their values. */
  datatype Library = Library(
    readFloat: string -> Option<int>,
    readDate: string -> Option<int>,
    readDateTime: string -> Option<int>,
    showFloat: int -> string,
    showDate: int -> string,
    showDateTime: int -> string)

  // ---- Printing ------------------------------------------------------------

  function Escaped(s: string): string {
    if s == "" then ""
    else (if s[0] == '\\' || s[0] == '\'' then ['\\', s[0]] else [s[0]]) + Escaped(s[1..])
  }

  function Quoted(s: string): string {
    "'" + Escaped(s) + "'"
  }

  function Digit(d: nat): char
    requires d < 10
  {
    '0' + d as char
  }

  function Decimal(n: nat): (r: string)
    ensures r != ""
  {
    if n < 10 then [Digit(n)] else Decimal(n / 10) + [Digit(n % 10)]
  }

  function ShowOperand(lib: Library, o: Operand): string {
    match o
    case Text(s) => Quoted(s)
    case Signed(i) => var n: int := i; if n < 0 then "-" + Decimal(-n) else Decimal(n)
    case Unsigned(u) => Decimal(u)
    case Float(c) => lib.showFloat(c)
    case Date(c) => "DATE " + lib.showDate(c)
    case DateTime(c) => "TIME " + lib.showDateTime(c)
  }

  function ShowCondition(lib: Library, c: Condition): string {
    match c.operation
    case Eq(o) => c.key + " = " + ShowOperand(lib, o)
    case Lt(o) => c.key + " < " + ShowOperand(lib, o)
    case Lte(o) => c.key + " <= " + ShowOperand(lib, o)
    case Gt(o) => c.key + " > " + ShowOperand(lib, o)
    case Gte(o) => c.key + " >= " + ShowOperand(lib, o)
    case Contains(s) => c.key + " CONTAINS " + Quoted(s)
    case Exists => c.key + " EXISTS"
  }

  function ShowEventType(t: EventType): string {
    match t
    case NewBlock => "NewBlock"
    case Tx => "Tx"
  }

  /** The items with a separator between any two. */
  function Joined(separator: string, items: seq<string>): string {
    if items == [] then "" else items[0] + Separated(separator, items[1..])
  }

  /** The items with a separator before each. */
  function Separated(separator: string, items: seq<string>): string {
    if items == [] then "" else separator + items[0] + Separated(separator, items[1..])
  }

  function ShowAll(lib: Library, conditions: seq<Condition>): seq<string> {
    if conditions == [] then [] else [ShowCondition(lib, conditions[0])] + ShowAll(lib, conditions[1..])
  }

  function Show(lib: Library, q: Query): string {
    (if q.eventType.Some?
     then "tm.event = '" + ShowEventType(q.eventType.value) + "'" + (if q.conditions == [] then "" else " AND ")
     else "")
    + Joined(" AND ", ShowAll(lib, q.conditions))
  }

  // ---- Grammar -------------------------------------------------------------

  type Parsed<T> = Option<(T, string)>

  /** The length of the longest run of matching characters. */
  function Run(p: char -> bool, s: string): (n: nat)
    ensures n <= |s| && (n == |s| || !p(s[n]))
    ensures forall i :: 0 <= i < n ==> p(s[i])
  {
    if s == "" || !p(s[0]) then 0 else 1 + Run(p, s[1..])
  }

  /** That run, and what follows it. */
  function Span(p: char -> bool, s: string): (r: (string, string)) {
    var n := Run(p, s);
    (s[..n], s[n..])
  }

  function Literal(text: string, s: string): (r: Option<string>)
    ensures r.Some? ==> s == text + r.value
  {
    if text <= s then Some(s[|text|..]) else None
  }

  predicate IsSpace(c: char) { c == ' ' }

  predicate IsDigit(c: char) { '0' <= c <= '9' }

  predicate IsLetter(c: char) { 'a' <= c <= 'z' || 'A' <= c <= 'Z' }

  predicate IsTagChar(c: char) { IsLetter(c) || IsDigit(c) || c == '_' || c == '.' }

  predicate IsNoQuote(c: char) { c != '\'' }

  /** Some or no spaces. */
  function Spaces(s: string): string {
    Span(IsSpace, s).1
  }

  /** At least one space. */
  function SomeSpaces(s: string): (r: Option<string>)
    ensures r.Some? ==> |r.value| < |s|
  {
    if s != "" && s[0] == ' ' then Some(Spaces(s)) else None
  }

  function DigitValue(c: char): nat
    requires IsDigit(c)
  {
    c as int - '0' as int
  }

  function Value(digits: string): nat
    requires forall i :: 0 <= i < |digits| ==> IsDigit(digits[i])
  {
    if digits == "" then 0
    else 10 * Value(digits[..|digits| - 1]) + DigitValue(digits[|digits| - 1])
  }

  function StringRule(s: string): (r: Parsed<string>)
    ensures r.Some? ==> NoQuotes(r.value.0) && |r.value.1| < |s|
  {
    if s == "" || s[0] != '\'' then None
    else
      var (text, rest) := Span(IsNoQuote, s[1..]);
      if rest == "" then None else Some((text, rest[1..]))
  }

  function UnsignedRule(s: string): (r: Parsed<U64>)
    ensures r.Some? ==> |r.value.1| < |s|
  {
    var (digits, rest) := Span(IsDigit, s);
    if digits == "" || Value(digits) >= TWO_64 then None else Some((Value(digits), rest))
  }

  function SignedRule(s: string): (r: Parsed<I64>)
    ensures r.Some? ==> |r.value.1| < |s|
  {
    if s == "" || s[0] != '-' then None
    else
      var (digits, rest) := Span(IsDigit, s[1..]);
      var n: int := Value(digits);
      if digits == "" || digits[0] == '0' || n > 0x8000_0000_0000_0000 then None else Some((-n, rest))
  }

  /** The text before `rest` in `s`. */
  function Before(s: string, rest: string): string
    requires |rest| <= |s|
  {
    s[..|s| - |rest|]
  }

  function FloatText(s: string): (r: Parsed<string>)
    ensures r.Some? ==> |r.value.1| <= |s|
  {
    var unsigned := if s != "" && s[0] == '-' then s[1..] else s;
    var (whole, point) := Span(IsDigit, unsigned);
    if whole == "" || point == "" || point[0] != '.' then None
    else
      var (fraction, rest) := Span(IsDigit, point[1..]);
      if fraction == "" then None else Some((Before(s, rest), rest))
  }

  predicate DateShape(t: string)
    requires |t| == 10
  {
    && IsDigit(t[0]) && IsDigit(t[1]) && IsDigit(t[2]) && IsDigit(t[3]) && t[4] == '-'
    && '0' <= t[5] <= '1' && IsDigit(t[6]) && t[7] == '-'
    && '0' <= t[8] <= '3' && IsDigit(t[9])
  }

  function DateText(s: string): (r: Parsed<string>)
    ensures r.Some? ==> |r.value.1| <= |s|
  {
    if |s| >= 10 && DateShape(s[..10]) then Some((s[..10], s[10..])) else None
  }

  predicate TimeShape(t: string)
    requires |t| == 8
  {
    && '0' <= t[0] <= '2' && IsDigit(t[1]) && t[2] == ':'
    && '0' <= t[3] <= '5' && IsDigit(t[4]) && t[5] == ':'
    && '0' <= t[6] <= '5' && IsDigit(t[7])
  }

  /** What follows an optional fraction of a second. */
  function AfterFraction(s: string): (r: string)
    ensures |r| <= |s|
  {
    if s == "" || s[0] != '.' then s
    else
      var (digits, rest) := Span(IsDigit, s[1..]);
      if digits == "" then s else rest
  }

  function DateTimeText(s: string): (r: Parsed<string>)
    ensures r.Some? ==> |r.value.1| <= |s|
  {
    if |s| < 19 || !DateShape(s[..10]) || s[10] != 'T' || !TimeShape(s[11..19]) then None
    else
      var rest := AfterFraction(s[19..]);
      if rest == "" || rest[0] != 'Z' then None else Some((Before(s, rest[1..]), rest[1..]))
  }

  /** A keyword and spaces. */
  function Keyword(keyword: string, s: string): (r: Option<string>)
    ensures r.Some? ==> |r.value| <= |s|
  {
    match Literal(keyword, s)
    case None => None
    case Some(a) => SomeSpaces(a)
  }

  /** A text that a library turns into a value. */
  function Converted(read: string -> Option<int>, text: Parsed<string>): (r: Parsed<int>)
    ensures r.Some? ==> text.Some? && r.value.1 == text.value.1
  {
    if text.None? || read(text.value.0).None? then None
    else Some((read(text.value.0).value, text.value.1))
  }

  function DateTimeRule(lib: Library, s: string): (r: Parsed<int>)
    ensures r.Some? ==> |r.value.1| <= |s|
  {
    var a := Keyword("TIME", s);
    if a.None? then None else Converted(lib.readDateTime, DateTimeText(a.value))
  }

  function DateRule(lib: Library, s: string): (r: Parsed<int>)
    ensures r.Some? ==> |r.value.1| <= |s|
  {
    var a := Keyword("DATE", s);
    if a.None? then None else Converted(lib.readDate, DateText(a.value))
  }

  function FloatRule(lib: Library, s: string): (r: Parsed<int>)
    ensures r.Some? ==> |r.value.1| <= |s|
  {
    Converted(lib.readFloat, FloatText(s))
  }

  function OperandRule(lib: Library, s: string): (r: Parsed<Operand>)
    ensures r.Some? ==> Readable(r.value.0) && |r.value.1| <= |s|
  {
    var dateTime := DateTimeRule(lib, s);
    if dateTime.Some? then Some((DateTime(dateTime.value.0), dateTime.value.1)) else
    var date := DateRule(lib, s);
    if date.Some? then Some((Date(date.value.0), date.value.1)) else
    var text := StringRule(s);
    if text.Some? then Some((Text(text.value.0), text.value.1)) else
    var float := FloatRule(lib, s);
    if float.Some? then Some((Float(float.value.0), float.value.1)) else
    var signed := SignedRule(s);
    if signed.Some? then SignedIsNegative(s); Some((Signed(signed.value.0), signed.value.1)) else
    var unsigned := UnsignedRule(s);
    if unsigned.Some? then Some((Unsigned(unsigned.value.0), unsigned.value.1)) else
    None
  }

  function TagRule(s: string): (r: Parsed<string>)
    ensures r.Some? ==> ValidKey(r.value.0) && |r.value.1| <= |s|
  {
    if s == "" || !IsLetter(s[0]) then None else Some(Span(IsTagChar, s))
  }

  /** An operator between optional spaces, and an operand. */
  function ComparisonRule(lib: Library, operator: string, s: string): (r: Parsed<Operand>)
    ensures r.Some? ==> Readable(r.value.0) && |r.value.1| <= |s|
  {
    match Literal(operator, Spaces(s))
    case None => None
    case Some(a) => OperandRule(lib, Spaces(a))
  }

  /** A word behind spaces. */
  function WordRule(word: string, s: string): (r: Option<string>)
    ensures r.Some? ==> |r.value| <= |s|
  {
    match SomeSpaces(s)
    case None => None
    case Some(a) => Literal(word, a)
  }

  function ContainsRule(s: string): (r: Parsed<string>)
    ensures r.Some? ==> NoQuotes(r.value.0) && |r.value.1| <= |s|
  {
    match WordRule("CONTAINS", s)
    case None => None
    case Some(a) =>
      match SomeSpaces(a)
      case None => None
      case Some(b) => StringRule(b)
  }

  /** The operations, in the order in which they are tried after a key. */
  function OperationRule(lib: Library, s: string): (r: Parsed<Operation>)
    ensures r.Some? ==> ReadableOperation(r.value.0) && |r.value.1| <= |s|
  {
    var eq := ComparisonRule(lib, "=", s);
    if eq.Some? then Some((Eq(eq.value.0), eq.value.1)) else
    var lte := ComparisonRule(lib, "<=", s);
    if lte.Some? then Some((Lte(lte.value.0), lte.value.1)) else
    var lt := ComparisonRule(lib, "<", s);
    if lt.Some? then Some((Lt(lt.value.0), lt.value.1)) else
    var gte := ComparisonRule(lib, ">=", s);
    if gte.Some? then Some((Gte(gte.value.0), gte.value.1)) else
    var gt := ComparisonRule(lib, ">", s);
    if gt.Some? then Some((Gt(gt.value.0), gt.value.1)) else
    var contains := ContainsRule(s);
    if contains.Some? then Some((Contains(contains.value.0), contains.value.1)) else
    var exists_ := WordRule("EXISTS", s);
    if exists_.Some? then Some((Exists, exists_.value)) else
    None
  }

  /** A condition; every alternative starts with the key. */
  function ConditionRule(lib: Library, s: string): (r: Parsed<Condition>)
    ensures r.Some? ==> ReadableCondition(r.value.0) && |r.value.1| <= |s|
  {
    match TagRule(s)
    case None => None
    case Some((key, a)) =>
      match OperationRule(lib, a)
      case None => None
      case Some((operation, rest)) => Some((Condition(key, operation), rest))
  }

  function EventTypeRule(s: string): (r: Parsed<EventType>)
    ensures r.Some? ==> |r.value.1| <= |s|
  {
    match Literal("tm.event", s)
    case None => None
    case Some(a) =>
      match Literal("=", Spaces(a))
      case None => None
      case Some(b) =>
        match Literal("'", Spaces(b))
        case None => None
        case Some(c) =>
          var newBlock, tx := Literal("NewBlock", c), Literal("Tx", c);
          var (t, d) := if newBlock.Some? then (NewBlock, newBlock) else (Tx, tx);
          if d.None? then None else
          match Literal("'", d.value)
          case None => None
          case Some(rest) => Some((t, rest))
  }

  datatype Term = EventTerm(eventType: EventType) | ConditionTerm(condition: Condition)

  function TermRule(lib: Library, s: string): (r: Parsed<Term>)
    ensures r.Some? ==> |r.value.1| <= |s|
    ensures r.Some? && r.value.0.ConditionTerm? ==> ReadableCondition(r.value.0.condition)
  {
    match EventTypeRule(s)
    case Some((t, rest)) => Some((EventTerm(t), rest))
    case None =>
      match ConditionRule(lib, s)
      case None => None
      case Some((c, rest)) => Some((ConditionTerm(c), rest))
  }

  // ---- What the rules can read ---------------------------------------------

  predicate NoQuotes(s: string) {
    forall i :: 0 <= i < |s| ==> IsNoQuote(s[i])
  }

  /** A key that the grammar reads. */
  predicate ValidKey(key: string) {
    key != "" && IsLetter(key[0]) && forall i :: 0 <= i < |key| ==> IsTagChar(key[i])
  }

  /** Texts have no quotes, and signed numbers are negative. */
  predicate Readable(o: Operand) {
    (o.Text? ==> NoQuotes(o.text)) && (o.Signed? ==> o.i < 0)
  }

  predicate ReadableOperation(o: Operation) {
    match o
    case Contains(s) => NoQuotes(s)
    case Exists => true
    case _ => Readable(o.operand)
  }

  predicate ReadableCondition(c: Condition) {
    ValidKey(c.key) && ReadableOperation(c.operation)
  }

  lemma {:induction false} ValueIsPositive(digits: string)
    requires digits != "" && digits[0] != '0' && forall i :: 0 <= i < |digits| ==> IsDigit(digits[i])
    ensures Value(digits) > 0
    decreases |digits|
  {
    if |digits| > 1 {
      ValueIsPositive(digits[..|digits| - 1]);
    }
  }

  lemma SignedIsNegative(s: string)
    requires SignedRule(s).Some?
    ensures SignedRule(s).value.0 < 0
  {
    ValueIsPositive(Span(IsDigit, s[1..]).0);
  }
}
