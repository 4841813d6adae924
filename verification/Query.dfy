/**
 Reading queries back: parsing the printed form of a query gives the query if
 and only if the query can be written in the grammar.
 */
module Queries {
  import opened Common
  import opened QueryGrammar

  // ---- The whole parser ----------------------------------------------------

  function Separator(s: string): (r: Option<string>)
    ensures r.Some? ==> |r.value| < |s|
  {
    match WordRule("AND", s)
    case None => None
    case Some(a) => SomeSpaces(a)
  }

  /** Any further terms, each behind a separator. */
  function MoreTerms(lib: Library, s: string): (r: (seq<Term>, string))
    decreases |s|
  {
    match Separator(s)
    case None => ([], s)
    case Some(a) =>
      match TermRule(lib, a)
      case None => ([], s)
      case Some((t, rest)) =>
        var (more, end) := MoreTerms(lib, rest);
        ([t] + more, end)
  }

  /** The terms of a query, which must take up the whole text. */
  function QueryRule(lib: Library, s: string): Option<seq<Term>> {
    match TermRule(lib, s)
    case None => if s == "" then Some([]) else None
    case Some((t, rest)) =>
      var (more, end) := MoreTerms(lib, rest);
      if end == "" then Some([t] + more) else None
  }

  function Separate(terms: seq<Term>): (seq<EventType>, seq<Condition>) {
    if terms == [] then ([], [])
    else
      var (types, conditions) := Separate(terms[1..]);
      match terms[0]
      case EventTerm(t) => ([t] + types, conditions)
      case ConditionTerm(c) => (types, [c] + conditions)
  }

  datatype QueryError = CannotParse | EventTypeRepeated

  function Assemble(terms: seq<Term>): Result<Query, QueryError> {
    var (types, conditions) := Separate(terms);
    if |types| > 1 then Err(EventTypeRepeated)
    else Ok(Query(if types == [] then None else Some(types[0]), conditions))
  }

  function Parse(lib: Library, s: string): Result<Query, QueryError> {
    match QueryRule(lib, s)
    case None => Err(CannotParse)
    case Some(terms) => Assemble(terms)
  }

  // ---- Reading the printed parts -------------------------------------------

  /** What may follow a printed condition: nothing, or a space. */
  predicate Follows(more: string) {
    more == "" || more[0] == ' '
  }

  lemma Associative(a: string, b: string, c: string)
    ensures (a + b) + c == a + (b + c)
  {
  }

  lemma {:induction false} RunOf(p: char -> bool, a: string, b: string)
    requires forall i :: 0 <= i < |a| ==> p(a[i])
    requires b == "" || !p(b[0])
    ensures Run(p, a + b) == |a|
    decreases |a|
  {
    if a == "" {
      assert a + b == b;
    } else {
      assert (a + b)[1..] == a[1..] + b;
      RunOf(p, a[1..], b);
    }
  }

  lemma SpanOf(p: char -> bool, a: string, b: string)
    requires forall i :: 0 <= i < |a| ==> p(a[i])
    requires b == "" || !p(b[0])
    ensures Span(p, a + b) == (a, b)
  {
    RunOf(p, a, b);
  }

  lemma OneSpace(s: string)
    requires s != "" && s[0] != ' '
    ensures Spaces(" " + s) == s && Spaces(s) == s && SomeSpaces(" " + s) == Some(s)
  {
    SpanOf(IsSpace, " ", s);
    SpanOf(IsSpace, "", s);
    assert "" + s == s;
  }

  lemma LiteralOf(text: string, more: string)
    ensures Literal(text, text + more) == Some(more)
  {
  }

  lemma {:induction false} EscapedKeepsNoQuotes(s: string)
    requires NoQuotes(s)
    ensures NoQuotes(Escaped(s))
  {
    if s != "" {
      assert IsNoQuote(s[0]);
      assert forall i :: 0 <= i < |s[1..]| ==> s[1..][i] == s[i + 1];
      EscapedKeepsNoQuotes(s[1..]);
    }
  }

  predicate NoBackslashes(s: string) {
    forall i :: 0 <= i < |s| ==> s[i] != '\\'
  }

  /** Escaping leaves a text without quotes alone exactly if it has no backslash. */
  lemma {:induction false} EscapedIsSameIff(s: string)
    requires NoQuotes(s)
    ensures |Escaped(s)| >= |s|
    ensures Escaped(s) == s <==> NoBackslashes(s)
    ensures NoBackslashes(Escaped(s)) ==> Escaped(s) == s
  {
    if s != "" {
      assert IsNoQuote(s[0]);
      assert forall i :: 0 <= i < |s[1..]| ==> s[1..][i] == s[i + 1];
      EscapedIsSameIff(s[1..]);
      assert s == [s[0]] + s[1..];
      if s[0] == '\\' {
        assert Escaped(s)[0] == '\\';
      } else {
        assert Escaped(s)[1..] == Escaped(s[1..]);
      }
    }
  }

  lemma StringReads(s: string, more: string)
    requires NoQuotes(s)
    ensures StringRule("'" + s + "'" + more) == Some((s, more))
  {
    var all := "'" + s + "'" + more;
    assert all[1..] == s + ("'" + more);
    SpanOf(IsNoQuote, s, "'" + more);
  }

  lemma QuotedReads(s: string, more: string)
    requires NoQuotes(s)
    ensures StringRule(Quoted(s) + more) == Some((Escaped(s), more))
  {
    EscapedKeepsNoQuotes(s);
    StringReads(Escaped(s), more);
    assert Quoted(s) + more == "'" + Escaped(s) + "'" + more;
  }

  predicate Digits(s: string) {
    forall i :: 0 <= i < |s| ==> IsDigit(s[i])
  }

  lemma {:induction false} DecimalReads(n: nat)
    ensures Digits(Decimal(n)) && Value(Decimal(n)) == n
    ensures n > 0 ==> Decimal(n)[0] != '0'
    decreases n
  {
    if n < 10 {
      assert Decimal(n)[..0] == "";
    } else {
      var d := Decimal(n);
      DecimalReads(n / 10);
      assert d[..|d| - 1] == Decimal(n / 10);
      assert d[|d| - 1] == Digit(n % 10);
    }
  }

  /**
   An operand whose text is the crate's own, or that its library prints in the
   grammar's shape and reads back from it.
   */
  predicate Plain(lib: Library, o: Operand) {
    match o
    case Float(c) =>
      FloatText(lib.showFloat(c)) == Some((lib.showFloat(c), "")) && lib.readFloat(lib.showFloat(c)) == Some(c)
    case Date(c) =>
      DateText(lib.showDate(c)) == Some((lib.showDate(c), "")) && lib.readDate(lib.showDate(c)) == Some(c)
    case DateTime(c) =>
      && DateTimeText(lib.showDateTime(c)) == Some((lib.showDateTime(c), ""))
      && lib.readDateTime(lib.showDateTime(c)) == Some(c)
    case _ => true
  }

  /** An operand as it is read back: texts keep their escapes. */
  function EscapedOperand(o: Operand): Operand {
    if o.Text? then Text(Escaped(o.text)) else o
  }

  /** What starts like a number and is no float is read as an integer. */
  lemma NumberOperand(lib: Library, s: string)
    requires s != "" && (s[0] == '-' || IsDigit(s[0])) && FloatText(s).None?
    ensures SignedRule(s).Some? ==> OperandRule(lib, s) == Some((Signed(SignedRule(s).value.0), SignedRule(s).value.1))
    ensures SignedRule(s).None? && UnsignedRule(s).Some? ==>
              OperandRule(lib, s) == Some((Unsigned(UnsignedRule(s).value.0), UnsignedRule(s).value.1))
  {
    assert DateTimeRule(lib, s).None? && DateRule(lib, s).None? && StringRule(s).None?;
  }

  lemma DigitsAreNoFloat(digits: string, more: string)
    requires Digits(digits) && digits != "" && Follows(more)
    ensures FloatText(digits + more).None?
  {
    SpanOf(IsDigit, digits, more);
    assert (digits + more)[0] == digits[0];
  }

  lemma NegativeIsNoFloat(digits: string, more: string)
    requires Digits(digits) && digits != "" && Follows(more)
    ensures FloatText("-" + (digits + more)).None?
  {
    SpanOf(IsDigit, digits, more);
    assert ("-" + (digits + more))[1..] == digits + more;
  }

  lemma UnsignedReads(lib: Library, u: U64, more: string)
    requires Follows(more)
    ensures OperandRule(lib, Decimal(u) + more) == Some((Unsigned(u), more))
  {
    var digits := Decimal(u);
    var s := digits + more;
    DecimalReads(u);
    DigitsAreNoFloat(digits, more);
    assert s[0] == digits[0] && IsDigit(s[0]);
    NumberOperand(lib, s);
    assert UnsignedRule(s) == Some((u, more)) by {
      SpanOf(IsDigit, digits, more);
    }
  }

  lemma SignedRuleReads(i: I64, digits: string, more: string)
    requires Follows(more) && i < 0 && Digits(digits) && digits != "" && digits[0] != '0'
    requires Value(digits) == -(i as int)
    ensures SignedRule("-" + (digits + more)) == Some((i, more))
  {
    assert ("-" + (digits + more))[1..] == digits + more;
    SpanOf(IsDigit, digits, more);
  }

  lemma NegativeReads(lib: Library, i: I64, more: string)
    requires Follows(more) && i < 0
    ensures OperandRule(lib, "-" + Decimal(-(i as int)) + more) == Some((Signed(i), more))
  {
    var digits := Decimal(-(i as int));
    DecimalReads(-(i as int));
    NegativeIsNoFloat(digits, more);
    SignedRuleReads(i, digits, more);
    NumberOperand(lib, "-" + (digits + more));
    Associative("-", digits, more);
  }

  lemma SignedReads(lib: Library, i: I64, more: string)
    requires Follows(more) && i < 0
    ensures OperandRule(lib, ShowOperand(lib, Signed(i)) + more) == Some((Signed(i), more))
  {
    NegativeReads(lib, i, more);
    assert ShowOperand(lib, Signed(i)) == "-" + Decimal(-(i as int));
  }

  lemma TextReads(lib: Library, text: string, more: string)
    requires NoQuotes(text)
    ensures OperandRule(lib, Quoted(text) + more) == Some((Text(Escaped(text)), more))
  {
    QuotedReads(text, more);
    assert (Quoted(text) + more)[0] == '\'';
  }

  /** A signed number that is not negative is read back unsigned. */
  lemma NonNegativeReads(lib: Library, i: I64, more: string)
    requires Follows(more) && i >= 0
    ensures OperandRule(lib, ShowOperand(lib, Signed(i)) + more) == Some((Unsigned(i), more))
  {
    UnsignedReads(lib, i, more);
  }

  /** A number without its sign. */
  function WithoutSign(t: string): string {
    if t != "" && t[0] == '-' then t[1..] else t
  }

  lemma FloatShape(t: string)
    requires FloatText(t) == Some((t, ""))
    ensures var (whole, point) := Span(IsDigit, WithoutSign(t));
            && whole != "" && point != "" && point[0] == '.'
            && Span(IsDigit, point[1..]).0 != "" && Span(IsDigit, point[1..]).1 == ""
  {
  }

  lemma SpanParts(p: char -> bool, s: string)
    ensures s == Span(p, s).0 + Span(p, s).1
    ensures forall i :: 0 <= i < |Span(p, s).0| ==> p(Span(p, s).0[i])
  {
  }

  /** The parts of a text that is a float. */
  lemma FloatParts(t: string) returns (whole: string, fraction: string)
    requires FloatText(t) == Some((t, ""))
    ensures WithoutSign(t) == whole + ("." + fraction)
    ensures Digits(whole) && whole != "" && Digits(fraction) && fraction != ""
  {
    FloatShape(t);
    var u := WithoutSign(t);
    var point := Span(IsDigit, u).1;
    whole, fraction := Span(IsDigit, u).0, Span(IsDigit, point[1..]).0;
    SpanParts(IsDigit, u);
    SpanParts(IsDigit, point[1..]);
    assert fraction + "" == fraction;
    assert point == "." + point[1..];
  }

  lemma FractionOf(whole: string, fraction: string, more: string)
    requires Digits(whole) && whole != "" && Digits(fraction) && fraction != "" && Follows(more)
    ensures Span(IsDigit, whole + ("." + (fraction + more))) == (whole, "." + (fraction + more))
    ensures ("." + (fraction + more))[1..] == fraction + more && Span(IsDigit, fraction + more) == (fraction, more)
  {
    SpanOf(IsDigit, whole, "." + (fraction + more));
    SpanOf(IsDigit, fraction, more);
  }

  lemma UnsignedOf(t: string, more: string)
    requires WithoutSign(t) != ""
    ensures WithoutSign(t + more) == WithoutSign(t) + more
  {
    assert (t + more)[0] == t[0];
    if t[0] == '-' {
      assert (t + more)[1..] == t[1..] + more;
    }
  }

  lemma FloatTextOf(s: string, whole: string, fraction: string, more: string)
    requires WithoutSign(s) == whole + ("." + (fraction + more)) && |more| <= |s|
    requires Digits(whole) && whole != "" && Digits(fraction) && fraction != "" && Follows(more)
    ensures FloatText(s) == Some((Before(s, more), more))
  {
    FractionOf(whole, fraction, more);
  }

  lemma FloatTextReads(t: string, more: string)
    requires FloatText(t) == Some((t, "")) && Follows(more)
    ensures FloatText(t + more) == Some((t, more))
    ensures t != "" && (t[0] == '-' || IsDigit(t[0]))
  {
    var whole, fraction := FloatParts(t);
    UnsignedOf(t, more);
    Associative(whole, "." + fraction, more);
    Associative(".", fraction, more);
    FloatTextOf(t + more, whole, fraction, more);
    assert Before(t + more, more) == t;
    assert WithoutSign(t)[0] == whole[0];
  }

  lemma FloatOperand(lib: Library, s: string)
    requires s != "" && (s[0] == '-' || IsDigit(s[0])) && FloatRule(lib, s).Some?
    ensures OperandRule(lib, s) == Some((Float(FloatRule(lib, s).value.0), FloatRule(lib, s).value.1))
  {
    assert DateTimeRule(lib, s).None? && DateRule(lib, s).None? && StringRule(s).None?;
  }

  lemma FloatReads(lib: Library, c: int, more: string)
    requires Plain(lib, Float(c)) && Follows(more)
    ensures OperandRule(lib, ShowOperand(lib, Float(c)) + more) == Some((Float(c), more))
  {
    var t := lib.showFloat(c);
    FloatTextReads(t, more);
    FloatOperand(lib, t + more);
  }

  lemma KeywordReads(keyword: string, t: string)
    requires t != "" && t[0] != ' '
    ensures Keyword(keyword, keyword + " " + t) == Some(t)
  {
    Associative(keyword, " ", t);
    LiteralOf(keyword, " " + t);
    OneSpace(t);
  }

  lemma DateOperand(lib: Library, s: string)
    requires s != "" && s[0] == 'D' && DateRule(lib, s).Some?
    ensures OperandRule(lib, s) == Some((Date(DateRule(lib, s).value.0), DateRule(lib, s).value.1))
  {
    assert DateTimeRule(lib, s).None?;
  }

  lemma DateReads(lib: Library, c: int, more: string)
    requires Plain(lib, Date(c)) && Follows(more)
    ensures OperandRule(lib, ShowOperand(lib, Date(c)) + more) == Some((Date(c), more))
  {
    var t := lib.showDate(c);
    assert t[..10] == t;
    assert (t + more)[..10] == t && (t + more)[10..] == more;
    KeywordReads("DATE", t + more);
    Associative("DATE ", t, more);
    DateOperand(lib, "DATE " + (t + more));
  }

  lemma TimeParts(t: string, more: string)
    requires |t| >= 19
    ensures var all := t + more;
            && all[..10] == t[..10] && all[10] == t[10] && all[11..19] == t[11..19] && all[19..] == t[19..] + more
            && Before(all, more) == t
  {
  }

  lemma DateTimeEnds(t: string)
    requires DateTimeText(t) == Some((t, ""))
    ensures |t| >= 19 && AfterFraction(t[19..]) == "Z" && IsDigit(t[0])
  {
    assert t[..10][0] == t[0];
  }

  lemma DateTimeTextReads(t: string, more: string)
    requires DateTimeText(t) == Some((t, "")) && Follows(more)
    ensures DateTimeText(t + more) == Some((t, more))
    ensures IsDigit(t[0])
  {
    DateTimeEnds(t);
    TimeParts(t, more);
    FractionReads(t[19..], more);
    assert ("Z" + more)[1..] == more;
  }

  /** What ends a time is read alike whatever follows. */
  lemma FractionReads(tail: string, more: string)
    requires AfterFraction(tail) == "Z"
    ensures AfterFraction(tail + more) == "Z" + more
  {
    if tail[0] == '.' {
      var (digits, rest) := Span(IsDigit, tail[1..]);
      assert (tail + more)[1..] == digits + (rest + more);
      SpanOf(IsDigit, digits, rest + more);
    }
  }

  lemma DateTimeOperand(lib: Library, s: string)
    requires DateTimeRule(lib, s).Some?
    ensures OperandRule(lib, s) == Some((DateTime(DateTimeRule(lib, s).value.0), DateTimeRule(lib, s).value.1))
  {
  }

  lemma TimeKeyword(t: string)
    requires t != "" && t[0] != ' '
    ensures Keyword("TIME", "TIME " + t) == Some(t)
  {
    KeywordReads("TIME", t);
    assert "TIME" + " " == "TIME ";
  }

  lemma DateTimeRuleReads(lib: Library, t: string, more: string)
    requires DateTimeText(t) == Some((t, "")) && lib.readDateTime(t).Some? && Follows(more)
    ensures DateTimeRule(lib, "TIME " + (t + more)) == Some((lib.readDateTime(t).value, more))
  {
    DateTimeTextReads(t, more);
    TimeKeyword(t + more);
  }

  lemma DateTimeReads(lib: Library, c: int, more: string)
    requires Plain(lib, DateTime(c)) && Follows(more)
    ensures OperandRule(lib, ShowOperand(lib, DateTime(c)) + more) == Some((DateTime(c), more))
  {
    var t := lib.showDateTime(c);
    DateTimeRuleReads(lib, t, more);
    DateTimeOperand(lib, "TIME " + (t + more));
    Associative("TIME ", t, more);
  }

  lemma OperandReads(lib: Library, o: Operand, more: string)
    requires Plain(lib, o) && Readable(o) && Follows(more)
    ensures OperandRule(lib, ShowOperand(lib, o) + more) == Some((EscapedOperand(o), more))
  {
    match o {
      case Text(text) => TextReads(lib, text, more);
      case Signed(i) => SignedReads(lib, i, more);
      case Unsigned(u) => UnsignedReads(lib, u, more);
      case Float(c) => FloatReads(lib, c, more);
      case Date(c) => DateReads(lib, c, more);
      case DateTime(c) => DateTimeReads(lib, c, more);
    }
  }

  lemma OperandStarts(lib: Library, o: Operand)
    requires Plain(lib, o) && Readable(o)
    ensures ShowOperand(lib, o) != "" && ShowOperand(lib, o)[0] != ' '
  {
    if o.Unsigned? {
      DecimalReads(o.u);
      assert IsDigit(Decimal(o.u)[0]);
    } else if o.Float? {
      FloatTextReads(lib.showFloat(o.code), "");
    }
  }

  // ---- Conditions ----------------------------------------------------------

  /** The text behind the key of a comparison. */
  function Compared(lib: Library, operator: string, o: Operand): string {
    " " + operator + " " + ShowOperand(lib, o)
  }

  lemma ComparisonOf(lib: Library, operator: string, shown: string)
    requires operator != "" && operator[0] != ' ' && shown != "" && shown[0] != ' '
    ensures var s := " " + (operator + (" " + shown));
            ComparisonRule(lib, operator, s) == OperandRule(lib, shown) && Spaces(s) == operator + (" " + shown)
  {
    OneSpace(operator + (" " + shown));
    LiteralOf(operator, " " + shown);
    OneSpace(shown);
  }

  lemma Regroup(operator: string, shown: string, more: string)
    ensures " " + operator + " " + shown + more == " " + (operator + (" " + (shown + more)))
    ensures operator + " " + shown + more == operator + (" " + (shown + more))
  {
  }

  lemma ComparisonReads(lib: Library, operator: string, o: Operand, more: string)
    requires Plain(lib, o) && Readable(o) && Follows(more)
    requires operator != "" && operator[0] != ' '
    ensures ComparisonRule(lib, operator, Compared(lib, operator, o) + more) == Some((EscapedOperand(o), more))
    ensures Spaces(Compared(lib, operator, o) + more) == operator + " " + ShowOperand(lib, o) + more
  {
    OperandReads(lib, o, more);
    OperandStarts(lib, o);
    var shown := ShowOperand(lib, o) + more;
    ComparisonOf(lib, operator, shown);
    Regroup(operator, ShowOperand(lib, o), more);
  }

  lemma ComparisonMisses(lib: Library, operator: string, s: string)
    requires !(operator <= Spaces(s))
    ensures ComparisonRule(lib, operator, s).None?
  {
  }

  predicate PlainOperation(lib: Library, o: Operation) {
    match o
    case Contains(_) => true
    case Exists => true
    case _ => Plain(lib, o.operand)
  }

  function EscapedOperation(o: Operation): Operation {
    match o
    case Contains(s) => Contains(Escaped(s))
    case Exists => Exists
    case _ => o.(operand := EscapedOperand(o.operand))
  }

  /** The text behind the key of a condition. */
  function ShowOperation(lib: Library, o: Operation): string {
    match o
    case Eq(x) => Compared(lib, "=", x)
    case Lt(x) => Compared(lib, "<", x)
    case Lte(x) => Compared(lib, "<=", x)
    case Gt(x) => Compared(lib, ">", x)
    case Gte(x) => Compared(lib, ">=", x)
    case Contains(s) => " CONTAINS " + Quoted(s)
    case Exists => " EXISTS"
  }

  lemma ShownCondition(lib: Library, c: Condition)
    ensures ShowCondition(lib, c) == c.key + ShowOperation(lib, c.operation)
  {
    match c.operation {
      case Eq(x) => ShownComparison(c.key, " = ", "=", ShowOperand(lib, x));
      case Lt(x) => ShownComparison(c.key, " < ", "<", ShowOperand(lib, x));
      case Lte(x) => ShownComparison(c.key, " <= ", "<=", ShowOperand(lib, x));
      case Gt(x) => ShownComparison(c.key, " > ", ">", ShowOperand(lib, x));
      case Gte(x) => ShownComparison(c.key, " >= ", ">=", ShowOperand(lib, x));
      case Contains(s) => Associative(c.key, " CONTAINS ", Quoted(s));
      case Exists =>
    }
  }

  lemma ShownComparison(key: string, spaced: string, operator: string, shown: string)
    requires spaced == " " + operator + " "
    ensures key + spaced + shown == key + (" " + operator + " " + shown)
  {
    Associative(key, spaced, shown);
  }

  lemma ShownBehind(lib: Library, c: Condition, more: string)
    ensures ShowCondition(lib, c) + more == c.key + (ShowOperation(lib, c.operation) + more)
  {
    ShownCondition(lib, c);
    Associative(c.key, ShowOperation(lib, c.operation), more);
  }

  lemma EqReads(lib: Library, x: Operand, more: string)
    requires Plain(lib, x) && Readable(x) && Follows(more)
    ensures OperationRule(lib, Compared(lib, "=", x) + more) == Some((Eq(EscapedOperand(x)), more))
  {
    ComparisonReads(lib, "=", x, more);
  }

  lemma LteReads(lib: Library, x: Operand, more: string)
    requires Plain(lib, x) && Readable(x) && Follows(more)
    ensures OperationRule(lib, Compared(lib, "<=", x) + more) == Some((Lte(EscapedOperand(x)), more))
  {
    var s := Compared(lib, "<=", x) + more;
    ComparisonReads(lib, "<=", x, more);
    assert Spaces(s)[0] == '<';
    ComparisonMisses(lib, "=", s);
  }

  lemma LtReads(lib: Library, x: Operand, more: string)
    requires Plain(lib, x) && Readable(x) && Follows(more)
    ensures OperationRule(lib, Compared(lib, "<", x) + more) == Some((Lt(EscapedOperand(x)), more))
  {
    var s := Compared(lib, "<", x) + more;
    ComparisonReads(lib, "<", x, more);
    assert Spaces(s)[0] == '<' && Spaces(s)[1] == ' ';
    ComparisonMisses(lib, "=", s);
    assert !("<=" <= Spaces(s)) by {
      assert "<="[1] == '=';
    }
    ComparisonMisses(lib, "<=", s);
  }

  lemma GteReads(lib: Library, x: Operand, more: string)
    requires Plain(lib, x) && Readable(x) && Follows(more)
    ensures OperationRule(lib, Compared(lib, ">=", x) + more) == Some((Gte(EscapedOperand(x)), more))
  {
    var s := Compared(lib, ">=", x) + more;
    ComparisonReads(lib, ">=", x, more);
    assert Spaces(s)[0] == '>';
    ComparisonMisses(lib, "=", s);
    ComparisonMisses(lib, "<=", s);
    ComparisonMisses(lib, "<", s);
  }

  lemma GtReads(lib: Library, x: Operand, more: string)
    requires Plain(lib, x) && Readable(x) && Follows(more)
    ensures OperationRule(lib, Compared(lib, ">", x) + more) == Some((Gt(EscapedOperand(x)), more))
  {
    var s := Compared(lib, ">", x) + more;
    ComparisonReads(lib, ">", x, more);
    assert Spaces(s)[0] == '>' && Spaces(s)[1] == ' ';
    ComparisonMisses(lib, "=", s);
    ComparisonMisses(lib, "<=", s);
    ComparisonMisses(lib, "<", s);
    assert !(">=" <= Spaces(s)) by {
      assert ">="[1] == '=';
    }
    ComparisonMisses(lib, ">=", s);
  }

  /** A word behind the key is no comparison. */
  lemma WordMissesComparisons(lib: Library, s: string)
    requires Spaces(s) != "" && IsLetter(Spaces(s)[0])
    ensures ComparisonRule(lib, "=", s).None?
    ensures ComparisonRule(lib, "<=", s).None? && ComparisonRule(lib, "<", s).None?
    ensures ComparisonRule(lib, ">=", s).None? && ComparisonRule(lib, ">", s).None?
  {
    ComparisonMisses(lib, "=", s);
    ComparisonMisses(lib, "<=", s);
    ComparisonMisses(lib, "<", s);
    ComparisonMisses(lib, ">=", s);
    ComparisonMisses(lib, ">", s);
  }

  lemma WordOperation(lib: Library, s: string)
    requires Spaces(s) != "" && IsLetter(Spaces(s)[0])
    ensures ContainsRule(s).Some? ==>
              OperationRule(lib, s) == Some((Contains(ContainsRule(s).value.0), ContainsRule(s).value.1))
    ensures ContainsRule(s).None? && WordRule("EXISTS", s).Some? ==>
              OperationRule(lib, s) == Some((Exists, WordRule("EXISTS", s).value))
  {
    WordMissesComparisons(lib, s);
  }

  lemma ContainsRegroup(quoted: string, more: string)
    ensures " CONTAINS " + quoted + more == " " + ("CONTAINS" + (" " + (quoted + more)))
  {
  }

  lemma ContainsRuleOf(quoted: string)
    requires quoted != "" && quoted[0] == '\''
    ensures ContainsRule(" " + ("CONTAINS" + (" " + quoted))) == StringRule(quoted)
    ensures Spaces(" " + ("CONTAINS" + (" " + quoted))) == "CONTAINS" + (" " + quoted)
  {
    WordIsRead("CONTAINS", " " + quoted);
    OneSpace(quoted);
  }

  lemma ContainsReads(lib: Library, text: string, more: string)
    requires NoQuotes(text)
    ensures OperationRule(lib, " CONTAINS " + Quoted(text) + more) == Some((Contains(Escaped(text)), more))
  {
    var quoted := Quoted(text) + more;
    QuotedReads(text, more);
    assert quoted[0] == '\'';
    ContainsRuleOf(quoted);
    ContainsRegroup(Quoted(text), more);
    WordOperation(lib, " " + ("CONTAINS" + (" " + quoted)));
  }

  lemma WordIsRead(word: string, more: string)
    requires word != "" && word[0] != ' '
    ensures Spaces(" " + (word + more)) == word + more && WordRule(word, " " + (word + more)) == Some(more)
  {
    OneSpace(word + more);
    LiteralOf(word, more);
  }

  lemma ExistsReads(lib: Library, more: string)
    ensures OperationRule(lib, " EXISTS" + more) == Some((Exists, more))
  {
    var s := " " + ("EXISTS" + more);
    WordIsRead("EXISTS", more);
    assert " EXISTS" + more == s;
    assert ContainsRule(s).None? by {
      assert ("EXISTS" + more)[0] == 'E';
      OneSpace("EXISTS" + more);
    }
    WordOperation(lib, s);
  }

  lemma OperationReads(lib: Library, o: Operation, more: string)
    requires PlainOperation(lib, o) && ReadableOperation(o) && Follows(more)
    ensures OperationRule(lib, ShowOperation(lib, o) + more) == Some((EscapedOperation(o), more))
    ensures ShowOperation(lib, o)[0] == ' '
  {
    match o {
      case Eq(x) => EqReads(lib, x, more);
      case Lt(x) => LtReads(lib, x, more);
      case Lte(x) => LteReads(lib, x, more);
      case Gt(x) => GtReads(lib, x, more);
      case Gte(x) => GteReads(lib, x, more);
      case Contains(s) => ContainsReads(lib, s, more);
      case Exists => ExistsReads(lib, more);
    }
  }

  function EscapedCondition(c: Condition): Condition {
    Condition(c.key, EscapedOperation(c.operation))
  }

  lemma ConditionOf(lib: Library, key: string, behind: string)
    requires ValidKey(key) && behind != "" && behind[0] == ' ' && OperationRule(lib, behind).Some?
    ensures var (operation, rest) := OperationRule(lib, behind).value;
            ConditionRule(lib, key + behind) == Some((Condition(key, operation), rest))
  {
    SpanOf(IsTagChar, key, behind);
    assert (key + behind)[0] == key[0];
  }

  /** A printed condition is read back, up to escapes. */
  lemma ConditionReads(lib: Library, c: Condition, more: string)
    requires PlainOperation(lib, c.operation) && ReadableCondition(c) && Follows(more)
    ensures ConditionRule(lib, ShowCondition(lib, c) + more) == Some((EscapedCondition(c), more))
  {
    var behind := ShowOperation(lib, c.operation) + more;
    OperationReads(lib, c.operation, more);
    ConditionOf(lib, c.key, behind);
    ShownBehind(lib, c, more);
  }

  // ---- Event types ---------------------------------------------------------

  /** A condition that is written like an event type. */
  function EventCondition(t: EventType): Condition {
    Condition("tm.event", Eq(Text(ShowEventType(t))))
  }

  lemma EventRegroup(name: string, more: string)
    ensures "tm.event = '" + name + "'" + more
         == "tm.event" + (" " + ("=" + (" " + ("'" + (name + ("'" + more))))))
  {
  }

  lemma EventTypeReads(t: EventType, more: string)
    ensures EventTypeRule("tm.event = '" + ShowEventType(t) + "'" + more) == Some((t, more))
  {
    var name := ShowEventType(t);
    var quoted := name + ("'" + more);
    var equals := "=" + (" " + ("'" + quoted));
    EventRegroup(name, more);
    LiteralOf("tm.event", " " + equals);
    OneSpace(equals);
    LiteralOf("=", " " + ("'" + quoted));
    OneSpace("'" + quoted);
    LiteralOf("'", quoted);
    EventNameReads(t, "'" + more);
    LiteralOf("'", more);
  }

  lemma EventNameReads(t: EventType, more: string)
    ensures Literal(ShowEventType(t), ShowEventType(t) + more) == Some(more)
    ensures t.Tx? ==> Literal("NewBlock", ShowEventType(t) + more).None?
  {
    if t.Tx? {
      assert ("Tx" + more)[0] == 'T';
    }
  }

  /** What an event type looks like, from the equals sign on. */
  lemma EventTypeShape(s: string) returns (a: string, b: string)
    requires EventTypeRule(s).Some?
    ensures var (t, rest) := EventTypeRule(s).value;
            s == "tm.event" + a && Spaces(a) == "=" + b && Spaces(b) == "'" + ShowEventType(t) + "'" + rest
  {
    a := Literal("tm.event", s).value;
    b := Literal("=", Spaces(a)).value;
    var c := Literal("'", Spaces(b)).value;
    var (t, rest) := EventTypeRule(s).value;
    assert c == ShowEventType(t) + ("'" + rest);
    Associative("'", ShowEventType(t), "'" + rest);
    Associative("'" + ShowEventType(t), "'", rest);
  }

  lemma EventComparison(lib: Library, t: EventType, a: string, b: string, rest: string)
    requires Spaces(a) == "=" + b && Spaces(b) == "'" + ShowEventType(t) + "'" + rest
    ensures OperationRule(lib, a) == Some((Eq(Text(ShowEventType(t))), rest))
  {
    TextOfEvent(lib, t, rest);
    LiteralOf("=", b);
    assert ComparisonRule(lib, "=", a) == Some((Text(ShowEventType(t)), rest));
  }

  /** Whatever is read as an event type could be read as that condition. */
  lemma EventTypeIsCondition(lib: Library, s: string)
    requires EventTypeRule(s).Some?
    ensures var (t, rest) := EventTypeRule(s).value;
            ConditionRule(lib, s) == Some((EventCondition(t), rest))
  {
    var (t, rest) := EventTypeRule(s).value;
    var a, b := EventTypeShape(s);
    EventComparison(lib, t, a, b, rest);
    KeyOfEvent(a);
  }

  lemma TextOfEvent(lib: Library, t: EventType, rest: string)
    ensures OperandRule(lib, "'" + ShowEventType(t) + "'" + rest) == Some((Text(ShowEventType(t)), rest))
  {
    StringReads(ShowEventType(t), rest);
    assert ("'" + ShowEventType(t) + "'" + rest)[0] == '\'';
  }

  lemma KeyOfEvent(a: string)
    requires Spaces(a) != "" && Spaces(a)[0] == '='
    ensures TagRule("tm.event" + a) == Some(("tm.event", a))
  {
    assert a[0] == ' ' || a[0] == '=';
    SpanOf(IsTagChar, "tm.event", a);
    assert ("tm.event" + a)[0] == 't';
  }

  // ---- Terms and queries ---------------------------------------------------

  /** What a printed condition is read as. */
  function ReadAs(c: Condition): Term {
    if c == EventCondition(NewBlock) then EventTerm(NewBlock)
    else if c == EventCondition(Tx) then EventTerm(Tx)
    else ConditionTerm(EscapedCondition(c))
  }

  lemma EscapedEventCondition(c: Condition, t: EventType)
    requires ReadableCondition(c) && EscapedCondition(c) == EventCondition(t)
    ensures c == EventCondition(t)
  {
    EscapedIsSameIff(c.operation.operand.text);
  }

  lemma EventNameIsPlain(t: EventType)
    ensures NoQuotes(ShowEventType(t)) && NoBackslashes(ShowEventType(t))
  {
    match t {
      case NewBlock => assert ShowEventType(t) == "NewBlock";
      case Tx => assert ShowEventType(t) == "Tx";
    }
  }

  lemma TextConditionShown(lib: Library, key: string, name: string)
    requires NoQuotes(name) && NoBackslashes(name)
    ensures ShowCondition(lib, Condition(key, Eq(Text(name)))) == key + " = '" + name + "'"
  {
    EscapedIsSameIff(name);
  }

  lemma EventConditionShown(lib: Library, t: EventType)
    ensures ShowCondition(lib, EventCondition(t)) == "tm.event = '" + ShowEventType(t) + "'"
  {
    EventNameIsPlain(t);
    TextConditionShown(lib, "tm.event", ShowEventType(t));
    assert "tm.event" + " = '" == "tm.event = '";
  }

  /** A printed condition is read as a term, which is an event type exactly if it is written like one. */
  lemma TermReads(lib: Library, c: Condition, more: string)
    requires PlainOperation(lib, c.operation) && ReadableCondition(c) && Follows(more)
    ensures TermRule(lib, ShowCondition(lib, c) + more) == Some((ReadAs(c), more))
  {
    var s := ShowCondition(lib, c) + more;
    ConditionReads(lib, c, more);
    if EventTypeRule(s).Some? {
      EventTypeIsCondition(lib, s);
      EscapedEventCondition(c, EventTypeRule(s).value.0);
    } else if c == EventCondition(NewBlock) {
      EventConditionShown(lib, NewBlock);
      EventTypeReads(NewBlock, more);
    } else if c == EventCondition(Tx) {
      EventConditionShown(lib, Tx);
      EventTypeReads(Tx, more);
    }
  }

  /** The query can be read back condition by condition: plain operands, valid keys, no quotes. */
  predicate Writable(q: Query) {
    forall i :: 0 <= i < |q.conditions| ==> ReadableCondition(q.conditions[i])
  }

  predicate PlainQuery(lib: Library, q: Query) {
    forall i :: 0 <= i < |q.conditions| ==> PlainOperation(lib, q.conditions[i].operation)
  }

  function ReadAll(conditions: seq<Condition>): seq<Term> {
    if conditions == [] then [] else [ReadAs(conditions[0])] + ReadAll(conditions[1..])
  }

  /** The text of further conditions. */
  function ShowMore(lib: Library, conditions: seq<Condition>): string {
    if conditions == [] then "" else " AND " + ShowCondition(lib, conditions[0]) + ShowMore(lib, conditions[1..])
  }

  lemma {:induction false} ShownMore(lib: Library, conditions: seq<Condition>)
    ensures Separated(" AND ", ShowAll(lib, conditions)) == ShowMore(lib, conditions)
    decreases |conditions|
  {
    if conditions != [] {
      assert ShowAll(lib, conditions)[1..] == ShowAll(lib, conditions[1..]);
      ShownMore(lib, conditions[1..]);
    }
  }

  lemma SeparatorReads(s: string)
    requires s != "" && s[0] != ' '
    ensures Separator(" AND " + s) == Some(s)
  {
    assert " AND " + s == " " + ("AND" + (" " + s));
    OneSpace("AND" + (" " + s));
    LiteralOf("AND", " " + s);
    OneSpace(s);
  }

  /** Further conditions are read back as terms, one by one. */
  lemma {:induction false} MoreTermsRead(lib: Library, conditions: seq<Condition>)
    requires AllReadable(lib, conditions)
    ensures MoreTerms(lib, ShowMore(lib, conditions)) == (ReadAll(conditions), "")
    ensures Follows(ShowMore(lib, conditions))
    decreases |conditions|
  {
    if conditions != [] {
      var c, later := conditions[0], conditions[1..];
      MoreTermsRead(lib, later);
      var more := ShowMore(lib, later);
      var s := ShowCondition(lib, c) + more;
      StartsWithKey(lib, c, more);
      Associative(" AND ", ShowCondition(lib, c), more);
      SeparatorReads(s);
      TermReads(lib, c, more);
    }
  }

  lemma StartsWithKey(lib: Library, c: Condition, more: string)
    requires ReadableCondition(c)
    ensures var s := ShowCondition(lib, c) + more; s != "" && s[0] != ' '
  {
    ShownBehind(lib, c, more);
  }

  /** The terms a printed query is read as. */
  function TermsOf(q: Query): seq<Term> {
    if q.eventType.Some? then [EventTerm(q.eventType.value)] + ReadAll(q.conditions) else ReadAll(q.conditions)
  }

  lemma EventTermReads(lib: Library, t: EventType, more: string)
    ensures TermRule(lib, "tm.event = '" + ShowEventType(t) + "'" + more) == Some((EventTerm(t), more))
  {
    EventTypeReads(t, more);
  }

  /** The text of a query, its first term apart from the rest. */
  function ShowTerms(lib: Library, q: Query): string {
    if q.eventType.Some? then
      "tm.event = '" + ShowEventType(q.eventType.value) + "'" + ShowMore(lib, q.conditions)
    else if q.conditions == [] then ""
    else ShowCondition(lib, q.conditions[0]) + ShowMore(lib, q.conditions[1..])
  }

  lemma ShownQuery(lib: Library, q: Query)
    ensures Show(lib, q) == ShowTerms(lib, q)
  {
    var all := ShowAll(lib, q.conditions);
    if q.conditions == [] {
      assert all == [];
    } else {
      assert all[1..] == ShowAll(lib, q.conditions[1..]);
      ShownMore(lib, q.conditions[1..]);
      if q.eventType.Some? {
        var event := "tm.event = '" + ShowEventType(q.eventType.value) + "'";
        Associative(event, " AND ", all[0] + Separated(" AND ", all[1..]));
        Associative(" AND ", all[0], Separated(" AND ", all[1..]));
      }
    }
  }

  lemma TermsFollow(lib: Library, s: string, t: Term, rest: string, more: seq<Term>)
    requires TermRule(lib, s) == Some((t, rest)) && MoreTerms(lib, rest) == (more, "")
    ensures QueryRule(lib, s) == Some([t] + more)
  {
  }

  predicate AllReadable(lib: Library, conditions: seq<Condition>) {
    forall i :: 0 <= i < |conditions| ==>
      PlainOperation(lib, conditions[i].operation) && ReadableCondition(conditions[i])
  }

  lemma EventQueryReads(lib: Library, t: EventType, conditions: seq<Condition>)
    requires AllReadable(lib, conditions)
    ensures QueryRule(lib, "tm.event = '" + ShowEventType(t) + "'" + ShowMore(lib, conditions))
         == Some([EventTerm(t)] + ReadAll(conditions))
  {
    var more := ShowMore(lib, conditions);
    MoreTermsRead(lib, conditions);
    EventTermReads(lib, t, more);
    TermsFollow(lib, "tm.event = '" + ShowEventType(t) + "'" + more, EventTerm(t), more, ReadAll(conditions));
  }

  lemma ConditionQueryReads(lib: Library, c: Condition, later: seq<Condition>)
    requires AllReadable(lib, [c] + later)
    ensures QueryRule(lib, ShowCondition(lib, c) + ShowMore(lib, later)) == Some([ReadAs(c)] + ReadAll(later))
  {
    var more := ShowMore(lib, later);
    var all := [c] + later;
    assert all[0] == c;
    assert forall i :: 0 <= i < |later| ==> later[i] == all[i + 1];
    MoreTermsRead(lib, later);
    TermReads(lib, c, more);
    TermsFollow(lib, ShowCondition(lib, c) + more, ReadAs(c), more, ReadAll(later));
  }

  lemma EmptyQueryReads(lib: Library)
    ensures QueryRule(lib, "") == Some([])
  {
    assert EventTypeRule("").None? && TagRule("").None?;
  }

  lemma TermsRead(lib: Library, q: Query)
    requires AllReadable(lib, q.conditions)
    ensures QueryRule(lib, ShowTerms(lib, q)) == Some(TermsOf(q))
  {
    if q.eventType.Some? {
      EventQueryReads(lib, q.eventType.value, q.conditions);
    } else if q.conditions == [] {
      EmptyQueryReads(lib);
    } else {
      assert q.conditions == [q.conditions[0]] + q.conditions[1..];
      ConditionQueryReads(lib, q.conditions[0], q.conditions[1..]);
    }
  }

  /** The printed form of a writable query is read as its terms. */
  lemma QueryReads(lib: Library, q: Query)
    requires PlainQuery(lib, q) && Writable(q)
    ensures QueryRule(lib, Show(lib, q)) == Some(TermsOf(q))
  {
    ShownQuery(lib, q);
    TermsRead(lib, q);
  }

  // ---- Exactly which queries are read back ---------------------------------

  ghost predicate EveryCondition(good: Condition -> bool, conditions: seq<Condition>) {
    forall i :: 0 <= i < |conditions| ==> good(conditions[i])
  }

  ghost predicate EveryTerm(good: Condition -> bool, terms: seq<Term>) {
    forall i :: 0 <= i < |terms| ==> terms[i].ConditionTerm? ==> good(terms[i].condition)
  }

  lemma {:induction false} SeparateKeeps(good: Condition -> bool, terms: seq<Term>)
    requires EveryTerm(good, terms)
    ensures EveryCondition(good, Separate(terms).1)
    decreases |terms|
  {
    if terms != [] {
      assert forall i :: 0 <= i < |terms[1..]| ==> terms[1..][i] == terms[i + 1];
      SeparateKeeps(good, terms[1..]);
    }
  }

  lemma EveryTermMore(good: Condition -> bool, t: Term, more: seq<Term>)
    requires t.ConditionTerm? ==> good(t.condition)
    requires EveryTerm(good, more)
    ensures EveryTerm(good, [t] + more)
  {
  }

  lemma {:induction false} MoreTermsAreReadable(lib: Library, s: string)
    ensures EveryTerm(ReadableCondition, MoreTerms(lib, s).0)
    decreases |s|
  {
    var a := Separator(s);
    if a.Some? {
      var t := TermRule(lib, a.value);
      if t.Some? {
        MoreTermsAreReadable(lib, t.value.1);
        EveryTermMore(ReadableCondition, t.value.0, MoreTerms(lib, t.value.1).0);
      }
    }
  }

  lemma TermsAreReadable(lib: Library, s: string)
    requires QueryRule(lib, s).Some?
    ensures EveryTerm(ReadableCondition, QueryRule(lib, s).value)
  {
    var t := TermRule(lib, s);
    if t.Some? {
      MoreTermsAreReadable(lib, t.value.1);
      EveryTermMore(ReadableCondition, t.value.0, MoreTerms(lib, t.value.1).0);
    }
  }

  lemma AssembledIsWritable(terms: seq<Term>)
    requires EveryTerm(ReadableCondition, terms) && Assemble(terms).Ok?
    ensures Writable(Assemble(terms).value)
  {
    SeparateKeeps(ReadableCondition, terms);
  }

  /** Every query that is read from a text is writable. */
  lemma ParsedIsWritable(lib: Library, s: string)
    requires Parse(lib, s).Ok?
    ensures Writable(Parse(lib, s).value)
  {
    TermsAreReadable(lib, s);
    AssembledIsWritable(QueryRule(lib, s).value);
  }

  /** The condition comes back as it was. */
  predicate Fixed(c: Condition) {
    ReadAs(c) == ConditionTerm(c)
  }

  lemma {:induction false} SeparateIsFixedIff(conditions: seq<Condition>)
    ensures var (types, read) := Separate(ReadAll(conditions));
            && |read| <= |conditions|
            && (read == conditions <==> forall i :: 0 <= i < |conditions| ==> Fixed(conditions[i]))
            && (read == conditions ==> types == [])
    decreases |conditions|
  {
    if conditions != [] {
      var c, later := conditions[0], conditions[1..];
      SeparateIsFixedIff(later);
      var (types, read) := Separate(ReadAll(later));
      assert ReadAll(conditions)[1..] == ReadAll(later);
      assert forall i :: 0 <= i < |later| ==> later[i] == conditions[i + 1];
      assert conditions == [c] + later;
      if ReadAs(c).ConditionTerm? {
        var e := ReadAs(c).condition;
        assert ([e] + read)[0] == e && ([e] + read)[1..] == read;
        assert [e] + read == conditions <==> e == c && read == later;
      }
    }
  }

  /** A text that is printed as it is. */
  predicate PrintableText(s: string) {
    NoQuotes(s) && NoBackslashes(s)
  }

  predicate PrintableOperation(o: Operation) {
    match o
    case Contains(s) => PrintableText(s)
    case Exists => true
    case _ => Readable(o.operand) && (o.operand.Text? ==> PrintableText(o.operand.text))
  }

  /**
   A valid key, texts without quote and backslash, signed numbers below zero,
   and not written like an event type.
   */
  predicate Printable(c: Condition) {
    && ValidKey(c.key) && PrintableOperation(c.operation)
    && c != EventCondition(NewBlock) && c != EventCondition(Tx)
  }

  lemma FixedIff(c: Condition)
    requires ReadableCondition(c)
    ensures Fixed(c) <==> Printable(c)
  {
    match c.operation {
      case Contains(s) => EscapedIsSameIff(s);
      case Exists =>
      case Eq(x) => EscapedOperandIff(x);
      case Lt(x) => EscapedOperandIff(x);
      case Lte(x) => EscapedOperandIff(x);
      case Gt(x) => EscapedOperandIff(x);
      case Gte(x) => EscapedOperandIff(x);
    }
  }

  lemma EscapedOperandIff(o: Operand)
    requires Readable(o)
    ensures EscapedOperand(o) == o <==> (o.Text? ==> PrintableText(o.text))
  {
    if o.Text? {
      EscapedIsSameIff(o.text);
    }
  }

  lemma WritableRoundTripIff(lib: Library, q: Query)
    requires PlainQuery(lib, q) && Writable(q)
    ensures Parse(lib, Show(lib, q)) == Ok(q)
       <==> forall i :: 0 <= i < |q.conditions| ==> Fixed(q.conditions[i])
  {
    QueryReads(lib, q);
    SeparateIsFixedIff(q.conditions);
    if q.eventType.Some? {
      assert TermsOf(q)[1..] == ReadAll(q.conditions);
    }
  }

  /**
   Parsing what was printed gives the query back if and only if each of its
   conditions is printable, for queries of any length.
   */
  lemma RoundTripIff(lib: Library, q: Query)
    requires PlainQuery(lib, q)
    ensures Parse(lib, Show(lib, q)) == Ok(q)
       <==> forall i :: 0 <= i < |q.conditions| ==> Printable(q.conditions[i])
  {
    if Writable(q) {
      WritableRoundTripIff(lib, q);
      forall i | 0 <= i < |q.conditions|
        ensures Fixed(q.conditions[i]) <==> Printable(q.conditions[i])
      {
        FixedIff(q.conditions[i]);
      }
    } else {
      NotReadBack(lib, q);
    }
  }

  lemma NotReadBack(lib: Library, q: Query)
    requires !Writable(q)
    ensures Parse(lib, Show(lib, q)) != Ok(q)
    ensures !forall i :: 0 <= i < |q.conditions| ==> Printable(q.conditions[i])
  {
    if Parse(lib, Show(lib, q)).Ok? {
      ParsedIsWritable(lib, Show(lib, q));
    }
    var i :| 0 <= i < |q.conditions| && !ReadableCondition(q.conditions[i]);
    assert !Printable(q.conditions[i]);
  }

  /** A quote in a text does not come back. */
  lemma QuoteIsLost(lib: Library)
    ensures var q := Query(None, [Condition("a", Eq(Text("'")))]); Parse(lib, Show(lib, q)) != Ok(q)
  {
    var text := "'";
    assert !NoQuotes(text) by {
      assert !IsNoQuote(text[0]);
    }
    NotPrintable(lib, Condition("a", Eq(Text(text))));
  }

  /** Nor does a backslash. */
  lemma BackslashIsLost(lib: Library)
    ensures var q := Query(None, [Condition("a", Contains("\\"))]); Parse(lib, Show(lib, q)) != Ok(q)
  {
    var text := "\\";
    assert !NoBackslashes(text) by {
      assert text[0] == '\\';
    }
    NotPrintable(lib, Condition("a", Contains(text)));
  }

  /** A signed number that is not negative comes back unsigned. */
  lemma SignIsLost(lib: Library)
    ensures var q := Query(None, [Condition("a", Lt(Signed(1)))]); Parse(lib, Show(lib, q)) != Ok(q)
  {
    NotPrintable(lib, Condition("a", Lt(Signed(1))));
  }

  /** A float that is printed without a point comes back as an integer. */
  lemma WholeFloatIsLost(lib: Library, code: int, u: U64)
    requires lib.showFloat(code) == Decimal(u)
    ensures var q := Query(None, [Condition("a", Lt(Float(code)))]); Parse(lib, Show(lib, q)) != Ok(q)
  {
    var q, read := Query(None, [Condition("a", Lt(Float(code)))]), Query(None, [Condition("a", Lt(Unsigned(u)))]);
    assert ShowCondition(lib, q.conditions[0]) == ShowCondition(lib, read.conditions[0]);
    assert q.conditions[1..] == read.conditions[1..];
    assert Show(lib, q) == Show(lib, read);
    RoundTripIff(lib, read);
  }

  /** A condition that is written like an event type comes back as one. */
  lemma EventConditionIsLost(lib: Library)
    ensures var q := Query(None, [EventCondition(Tx)]); Parse(lib, Show(lib, q)) != Ok(q)
  {
    NotPrintable(lib, EventCondition(Tx));
  }

  lemma NotPrintable(lib: Library, c: Condition)
    requires PlainOperation(lib, c.operation) && !Printable(c)
    ensures Parse(lib, Show(lib, Query(None, [c]))) != Ok(Query(None, [c]))
  {
    var q := Query(None, [c]);
    assert q.conditions[0] == c;
    RoundTripIff(lib, q);
  }

  // ---- The loops -----------------------------------------------------------

  /** A character with a backslash before it where it needs one. */
  /** The text without its escapes, if every quote in it is escaped. */
  function Unescaped(s: string): Option<string> {
    if s == "" then Some("")
    else if s[0] == '\'' || s == "\\" then None
    else
      var n := if s[0] == '\\' then 2 else 1;
      match Unescaped(s[n..])
      case None => None
      case Some(rest) => Some([s[n - 1]] + rest)
  }

  /** Escaping can be undone for every text. */
  lemma {:induction false} UnescapedEscaped(s: string)
    ensures Unescaped(Escaped(s)) == Some(s)
  {
    if s != "" {
      UnescapedEscaped(s[1..]);
      var n := if s[0] == '\\' || s[0] == '\'' then 2 else 1;
      assert Escaped(s)[n..] == Escaped(s[1..]);
      assert s == [s[0]] + s[1..];
    }
  }

  function EscapedChar(c: char): string {
    if c == '\\' || c == '\'' then ['\\', c] else [c]
  }

  lemma EscapedStep(result: string, s: string, i: nat)
    requires i < |s|
    ensures result + Escaped(s[i..]) == result + EscapedChar(s[i]) + Escaped(s[i + 1..])
  {
    assert s[i..][1..] == s[i + 1..];
    Associative(result, EscapedChar(s[i]), Escaped(s[i + 1..]));
  }

  method Escape(s: string) returns (r: string)
    ensures r == Quoted(s)
  {
    var result := "";
    for i := 0 to |s|
      invariant result + Escaped(s[i..]) == Escaped(s)
    {
      EscapedStep(result, s, i);
      ghost var before := result;
      if s[i] == '\\' || s[i] == '\'' {
        result := result + ['\\'];
      }
      result := result + [s[i]];
      assert result == before + EscapedChar(s[i]);
    }
    r := "'" + result + "'";
  }

  method Join(separator: string, items: seq<string>) returns (r: string)
    ensures r == Joined(separator, items)
  {
    r := "";
    if items != [] {
      r := items[0];
      for i := 1 to |items|
        invariant r + Separated(separator, items[i..]) == Joined(separator, items)
      {
        assert items[i..][1..] == items[i + 1..];
        r := r + separator + items[i];
      }
    }
  }

  method SeparateTerms(terms: seq<Term>) returns (types: seq<EventType>, conditions: seq<Condition>)
    ensures (types, conditions) == Separate(terms)
  {
    types, conditions := [], [];
    for i := 0 to |terms|
      invariant types + Separate(terms[i..]).0 == Separate(terms).0
      invariant conditions + Separate(terms[i..]).1 == Separate(terms).1
    {
      assert terms[i..][1..] == terms[i + 1..];
      match terms[i] {
        case EventTerm(t) => types := types + [t];
        case ConditionTerm(c) => conditions := conditions + [c];
      }
    }
    assert terms[|terms|..] == [] && types + [] == types && conditions + [] == conditions;
  }

  predicate EventAt(terms: seq<Term>, i: nat) {
    i < |terms| && terms[i].EventTerm?
  }

  lemma SeparateOne(term: Term)
    ensures Separate([term]).0 == if term.EventTerm? then [term.eventType] else []
    ensures Separate([term]).1 == if term.ConditionTerm? then [term.condition] else []
  {
    assert [term][1..] == [];
  }

  /** The terms are told apart one by one, each kind in order. */
  lemma {:induction false} SeparateBoth(a: seq<Term>, b: seq<Term>)
    ensures Separate(a + b).0 == Separate(a).0 + Separate(b).0
    ensures Separate(a + b).1 == Separate(a).1 + Separate(b).1
  {
    if a == [] {
      assert a + b == b;
    } else {
      assert (a + b)[1..] == a[1..] + b;
      SeparateBoth(a[1..], b);
    }
  }

  lemma {:induction false} EventsAre(terms: seq<Term>)
    ensures Separate(terms).0 == [] <==> forall i: nat :: !EventAt(terms, i)
    ensures |Separate(terms).0| > 1 <==> exists i: nat, j: nat :: i < j && EventAt(terms, i) && EventAt(terms, j)
    ensures |Separate(terms).0| == 1 ==> EventTerm(Separate(terms).0[0]) in terms
    decreases |terms|
  {
    if terms != [] {
      var later := terms[1..];
      EventsAre(later);
      assert forall i: nat :: EventAt(later, i) <==> EventAt(terms, i + 1);
      var types := Separate(later).0;
      if EventAt(terms, 0) && types != [] {
        var j: nat :| EventAt(later, j);
        assert EventAt(terms, j + 1);
      } else if |types| > 1 {
        var i: nat, j: nat :| i < j && EventAt(later, i) && EventAt(later, j);
        assert EventAt(terms, i + 1) && EventAt(terms, j + 1);
      }
      if i: nat, j: nat :| i < j && EventAt(terms, i) && EventAt(terms, j) {
        assert EventAt(later, j - 1);
        if i > 0 {
          assert EventAt(later, i - 1);
        }
      }
      if i: nat :| EventAt(terms, i) && i > 0 {
        assert EventAt(later, i - 1);
      }
    }
  }

  /** A query is refused exactly if it names its event type twice; else it has the one that is named, if any. */
  lemma AssembleIs(terms: seq<Term>)
    ensures var r := Assemble(terms);
            if exists i: nat, j: nat :: i < j && EventAt(terms, i) && EventAt(terms, j)
            then r == Err(EventTypeRepeated)
            else
              && r.Ok? && r.value.conditions == Separate(terms).1
              && (r.value.eventType.None? <==> forall i: nat :: !EventAt(terms, i))
              && (r.value.eventType.Some? ==> EventTerm(r.value.eventType.value) in terms)
  {
    EventsAre(terms);
  }

  method FromStr(lib: Library, s: string) returns (r: Result<Query, QueryError>)
    ensures r == Parse(lib, s)
  {
    var terms := QueryRule(lib, s);
    if terms.None? {
      return Err(CannotParse);
    }
    var types, conditions := SeparateTerms(terms.value);
    if |types| > 1 {
      return Err(EventTypeRepeated);
    }
    return Ok(Query(if types == [] then None else Some(types[0]), conditions));
  }
}
