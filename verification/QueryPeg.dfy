/**
 The grammar of event queries as it is written in rpc/src/query.rs, as a value,
 with the usual meaning of parsing expression grammars.  The rules of
 `QueryGrammar.dfy` take just what it takes.
 */
module QueryPeg {
  import opened Common
  import opened QueryGrammar
  import opened Queries

  datatype Peg =
    | Char(fits: char -> bool)
    | Exactly(text: string)
    | Repeat(inner: Peg)
    | Maybe(inner: Peg)
    | Then(first: Peg, second: Peg)
    | Or(first: Peg, second: Peg)
    | Where(inner: Peg, converts: string -> bool)

  /** The text behind what the expression takes, which is all it can. */
  function Eat(g: Peg, s: string): (r: Option<string>)
    ensures r.Some? ==> |r.value| <= |s|
    decreases |s|, g
  {
    match g
    case Char(fits) => if s != "" && fits(s[0]) then Some(s[1..]) else None
    case Exactly(text) => if text <= s then Some(s[|text|..]) else None
    case Repeat(inner) =>
      (match Eat(inner, s)
       case None => Some(s)
       case Some(rest) => if |rest| < |s| then Eat(g, rest) else Some(s))
    case Maybe(inner) =>
      (match Eat(inner, s)
       case None => Some(s)
       case Some(rest) => Some(rest))
    case Then(first, second) =>
      (match Eat(first, s)
       case None => None
       case Some(rest) => Eat(second, rest))
    case Or(first, second) =>
      (match Eat(first, s)
       case None => Eat(second, s)
       case Some(rest) => Some(rest))
    case Where(inner, converts) =>
      (match Eat(inner, s)
       case None => None
       case Some(rest) => if converts(Before(s, rest)) then Some(rest) else None)
  }

  // ---- The source's grammar ------------------------------------------------

  predicate IsNonZeroDigit(c: char) { '1' <= c <= '9' }

  predicate UpToOne(c: char) { '0' <= c <= '1' }

  predicate UpToTwo(c: char) { '0' <= c <= '2' }

  predicate UpToThree(c: char) { '0' <= c <= '3' }

  predicate UpToFive(c: char) { '0' <= c <= '5' }

  const SPACES := Repeat(Char(IsSpace))
  const SOME_SPACES := Then(Char(IsSpace), Repeat(Char(IsSpace)))
  const DIGITS := Then(Char(IsDigit), Repeat(Char(IsDigit)))
  const STRING := Then(Exactly("'"), Then(Repeat(Char(IsNoQuote)), Exactly("'")))
  const UNSIGNED := Where(DIGITS, FitsU64)
  const NEGATIVE := Then(Exactly("-"), Then(Char(IsNonZeroDigit), Repeat(Char(IsDigit))))
  const SIGNED := Where(NEGATIVE, FitsI64)
  const YEAR := Then(Char(IsDigit), Then(Char(IsDigit), Then(Char(IsDigit), Char(IsDigit))))
  const MONTH := Then(Char(UpToOne), Char(IsDigit))
  const DAY := Then(Char(UpToThree), Char(IsDigit))
  const DATE := Then(YEAR, Then(Exactly("-"), Then(MONTH, Then(Exactly("-"), DAY))))
  const HOUR := Then(Char(UpToTwo), Char(IsDigit))
  const MIN_SEC := Then(Char(UpToFive), Char(IsDigit))
  const NANOSEC := Then(Exactly("."), DIGITS)
  const AFTER_SECONDS := Then(Maybe(NANOSEC), Exactly("Z"))
  const SECONDS := Then(MIN_SEC, AFTER_SECONDS)
  const MINUTES := Then(MIN_SEC, Then(Exactly(":"), SECONDS))
  const TIME := Then(HOUR, Then(Exactly(":"), MINUTES))
  const DATETIME := Then(DATE, Then(Exactly("T"), TIME))
  const FLOAT := Then(Maybe(Exactly("-")), Then(DIGITS, Then(Exactly("."), DIGITS)))
  const TAG := Then(Char(IsLetter), Repeat(Char(IsTagChar)))

  predicate FitsU64(text: string) {
    Digits(text) && Value(text) < TWO_64
  }

  predicate FitsI64(text: string) {
    text != "" && Digits(text[1..]) && Value(text[1..]) <= 0x8000_0000_0000_0000
  }

  function DateTimeOp(lib: Library): Peg {
    Then(Exactly("TIME"), Then(SOME_SPACES, Where(DATETIME, t => lib.readDateTime(t).Some?)))
  }

  function DateOp(lib: Library): Peg {
    Then(Exactly("DATE"), Then(SOME_SPACES, Where(DATE, t => lib.readDate(t).Some?)))
  }

  function FloatOp(lib: Library): Peg {
    Where(FLOAT, t => lib.readFloat(t).Some?)
  }

  function OperandPeg(lib: Library): Peg {
    Or(DateTimeOp(lib), Or(DateOp(lib), Or(STRING, Or(FloatOp(lib), Or(SIGNED, UNSIGNED)))))
  }

  function ComparisonPeg(lib: Library, operator: string): Peg {
    Then(TAG, Then(SPACES, Then(Exactly(operator), Then(SPACES, OperandPeg(lib)))))
  }

  const CONTAINS := Then(TAG, Then(SOME_SPACES, Then(Exactly("CONTAINS"), Then(SOME_SPACES, STRING))))
  const EXISTS := Then(TAG, Then(SOME_SPACES, Exactly("EXISTS")))

  function ConditionPeg(lib: Library): Peg {
    Or(ComparisonPeg(lib, "="), Or(ComparisonPeg(lib, "<="), Or(ComparisonPeg(lib, "<"),
    Or(ComparisonPeg(lib, ">="), Or(ComparisonPeg(lib, ">"), Or(CONTAINS, EXISTS))))))
  }

  const EVENT_NAME := Or(Exactly("NewBlock"), Exactly("Tx"))
  const QUOTED_NAME := Then(Exactly("'"), Then(EVENT_NAME, Exactly("'")))
  const EVENT_TYPE := Then(Exactly("tm.event"), Then(SPACES, Then(Exactly("="), Then(SPACES, QUOTED_NAME))))

  function TermPeg(lib: Library): Peg {
    Or(EVENT_TYPE, ConditionPeg(lib))
  }

  const AND := Then(SOME_SPACES, Then(Exactly("AND"), SOME_SPACES))

  /** Terms with separators between them, or none. */
  function QueryGrammarPeg(lib: Library): Peg {
    Maybe(Then(TermPeg(lib), Repeat(Then(AND, TermPeg(lib)))))
  }

  // ---- The rules take what it takes ----------------------------------------

  /** What is left after a rule. */
  function Rest<T>(p: Parsed<T>): Option<string> {
    if p.None? then None else Some(p.value.1)
  }

  lemma ThenIs(a: Peg, b: Peg, s: string)
    ensures Eat(Then(a, b), s) == (if Eat(a, s).None? then None else Eat(b, Eat(a, s).value))
  {
  }

  lemma OrIs(a: Peg, b: Peg, s: string)
    ensures Eat(Or(a, b), s) == (if Eat(a, s).Some? then Eat(a, s) else Eat(b, s))
  {
  }

  lemma ExactlyIs(text: string, s: string)
    ensures Eat(Exactly(text), s) == Literal(text, s)
  {
  }

  /** One character is a text of its own. */
  lemma OneChar(c: char, s: string)
    ensures Literal([c], s) == if s != "" && s[0] == c then Some(s[1..]) else None
  {
    if s != "" && s[0] == c {
      assert s == [c] + s[1..];
    }
  }

  lemma {:induction false} RepeatedChars(p: char -> bool, s: string)
    ensures Eat(Repeat(Char(p)), s) == Some(Span(p, s).1)
    decreases |s|
  {
    if s != "" && p(s[0]) {
      RepeatedChars(p, s[1..]);
      assert Span(p, s).1 == Span(p, s[1..]).1 by {
        assert s[1..][Run(p, s[1..])..] == s[1 + Run(p, s[1..])..];
      }
    }
  }

  lemma SpacesTake(s: string)
    ensures Eat(SPACES, s) == Some(Spaces(s)) && Eat(SOME_SPACES, s) == SomeSpaces(s)
  {
    RepeatedChars(IsSpace, s);
    if s != "" && s[0] == ' ' {
      RepeatedChars(IsSpace, s[1..]);
    }
  }

  /** The text before what is left of a span. */
  lemma SpanTakes(p: char -> bool, s: string)
    ensures |Span(p, s).1| <= |s| && Before(s, Span(p, s).1) == Span(p, s).0
    ensures s == Span(p, s).0 + Span(p, s).1
  {
  }

  lemma DigitsTake(s: string)
    ensures Eat(DIGITS, s) == (if Span(IsDigit, s).0 == "" then None else Some(Span(IsDigit, s).1))
  {
    if s != "" && IsDigit(s[0]) {
      RepeatedChars(IsDigit, s[1..]);
      RepeatedChars(IsDigit, s);
    }
  }

  lemma StringTakes(s: string)
    ensures Eat(STRING, s) == Rest(StringRule(s))
  {
    var inner := Then(Repeat(Char(IsNoQuote)), Exactly("'"));
    ThenIs(Exactly("'"), inner, s);
    ExactlyIs("'", s);
    OneChar('\'', s);
    if s != "" && s[0] == '\'' {
      var (text, rest) := Span(IsNoQuote, s[1..]);
      ThenIs(Repeat(Char(IsNoQuote)), Exactly("'"), s[1..]);
      RepeatedChars(IsNoQuote, s[1..]);
      ExactlyIs("'", rest);
      OneChar('\'', rest);
      SpanTakes(IsNoQuote, s[1..]);
    }
  }

  lemma UnsignedTakes(s: string)
    ensures Eat(UNSIGNED, s) == Rest(UnsignedRule(s))
    ensures UnsignedRule(s).Some? ==>
              var text := Before(s, UnsignedRule(s).value.1); FitsU64(text) && UnsignedRule(s).value.0 == Value(text)
  {
    DigitsTake(s);
    SpanTakes(IsDigit, s);
  }

  predicate Negative(s: string) {
    && s != "" && s[0] == '-'
    && var digits := Span(IsDigit, s[1..]).0; digits != "" && digits[0] != '0'
  }

  lemma NonZeroTakes(t: string)
    ensures Eat(Then(Char(IsNonZeroDigit), Repeat(Char(IsDigit))), t) ==
            var (digits, rest) := Span(IsDigit, t);
            if digits != "" && digits[0] != '0' then Some(rest) else None
  {
    ThenIs(Char(IsNonZeroDigit), Repeat(Char(IsDigit)), t);
    SpanTakes(IsDigit, t);
    if t != "" && IsNonZeroDigit(t[0]) {
      RepeatedChars(IsDigit, t[1..]);
      RepeatedChars(IsDigit, t);
    }
  }

  lemma NegativeTakes(s: string)
    ensures Eat(NEGATIVE, s) == if Negative(s) then Some(Span(IsDigit, s[1..]).1) else None
  {
    ThenIs(Exactly("-"), Then(Char(IsNonZeroDigit), Repeat(Char(IsDigit))), s);
    ExactlyIs("-", s);
    OneChar('-', s);
    if s != "" && s[0] == '-' {
      NonZeroTakes(s[1..]);
    }
  }

  lemma NegativeText(s: string)
    requires Negative(s)
    ensures |Span(IsDigit, s[1..]).1| <= |s|
    ensures Before(s, Span(IsDigit, s[1..]).1) == "-" + Span(IsDigit, s[1..]).0
  {
    SpanTakes(IsDigit, s[1..]);
  }

  /** The number is the one the text stands for. */
  lemma SignedTakes(s: string)
    ensures Eat(SIGNED, s) == Rest(SignedRule(s))
    ensures SignedRule(s).Some? ==>
              var text := Before(s, SignedRule(s).value.1);
              FitsI64(text) && text[0] == '-' && SignedRule(s).value.0 as int == -(Value(text[1..]) as int)
  {
    NegativeTakes(s);
    if Negative(s) {
      NegativeText(s);
      var digits := Span(IsDigit, s[1..]).0;
      assert ("-" + digits)[1..] == digits;
    }
  }

  lemma TagTakes(s: string)
    ensures Eat(TAG, s) == Rest(TagRule(s))
    ensures TagRule(s).Some? ==> TagRule(s).value.0 == Before(s, TagRule(s).value.1)
  {
    ThenIs(Char(IsLetter), Repeat(Char(IsTagChar)), s);
    SpanTakes(IsTagChar, s);
    if s != "" && IsLetter(s[0]) {
      RepeatedChars(IsTagChar, s[1..]);
      RepeatedChars(IsTagChar, s);
    }
  }

  lemma FloatTextTakes(s: string)
    ensures Eat(FLOAT, s) == Rest(FloatText(s))
    ensures FloatText(s).Some? ==> FloatText(s).value.0 == Before(s, FloatText(s).value.1)
  {
    var number := Then(DIGITS, Then(Exactly("."), DIGITS));
    ThenIs(Maybe(Exactly("-")), number, s);
    ExactlyIs("-", s);
    OneChar('-', s);
    var t := if s != "" && s[0] == '-' then s[1..] else s;
    assert Eat(Maybe(Exactly("-")), s) == Some(t);
    ThenIs(DIGITS, Then(Exactly("."), DIGITS), t);
    DigitsTake(t);
    var (whole, point) := Span(IsDigit, t);
    ThenIs(Exactly("."), DIGITS, point);
    ExactlyIs(".", point);
    OneChar('.', point);
    if point != "" {
      DigitsTake(point[1..]);
    }
  }

  // ---- Texts of a fixed shape ----------------------------------------------

  predicate Fits(p: char -> bool, s: string, i: nat) {
    i < |s| && p(s[i])
  }

  /** From position `i` on, the expression takes just `n` characters, and only where they are as they should be. */
  predicate FixedAt(g: Peg, s: string, i: nat, n: nat, ok: bool) {
    i <= |s| ==> (ok ==> i + n <= |s|) && Eat(g, s[i..]) == if ok then Some(s[i + n..]) else None
  }

  lemma CharAt(p: char -> bool, s: string, i: nat)
    ensures FixedAt(Char(p), s, i, 1, Fits(p, s, i))
  {
    if i < |s| {
      assert s[i..][1..] == s[i + 1..];
    }
  }

  lemma TextAt(c: char, s: string, i: nat)
    ensures FixedAt(Exactly([c]), s, i, 1, Fits(x => x == c, s, i))
  {
    if i <= |s| {
      ExactlyIs([c], s[i..]);
      OneChar(c, s[i..]);
      if i < |s| {
        assert s[i..][1..] == s[i + 1..];
      }
    }
  }

  lemma ThenAt(a: Peg, b: Peg, s: string, i: nat, n: nat, m: nat, first: bool, second: bool)
    requires FixedAt(a, s, i, n, first) && FixedAt(b, s, i + n, m, second)
    ensures FixedAt(Then(a, b), s, i, n + m, first && second)
  {
    if i <= |s| {
      ThenIs(a, b, s[i..]);
    }
  }

  lemma TwoAt(p: char -> bool, q: char -> bool, s: string, i: nat)
    ensures FixedAt(Then(Char(p), Char(q)), s, i, 2, Fits(p, s, i) && Fits(q, s, i + 1))
  {
    CharAt(p, s, i);
    CharAt(q, s, i + 1);
    ThenAt(Char(p), Char(q), s, i, 1, 1, Fits(p, s, i), Fits(q, s, i + 1));
  }

  predicate YearAt(s: string, i: nat) {
    Fits(IsDigit, s, i) && Fits(IsDigit, s, i + 1) && Fits(IsDigit, s, i + 2) && Fits(IsDigit, s, i + 3)
  }

  lemma YearTakes(s: string, i: nat)
    ensures FixedAt(YEAR, s, i, 4, YearAt(s, i))
  {
    var digit := Char(IsDigit);
    CharAt(IsDigit, s, i);
    CharAt(IsDigit, s, i + 1);
    TwoAt(IsDigit, IsDigit, s, i + 2);
    var two := Fits(IsDigit, s, i + 2) && Fits(IsDigit, s, i + 3);
    var three := Fits(IsDigit, s, i + 1) && two;
    ThenAt(digit, Then(digit, digit), s, i + 1, 1, 2, Fits(IsDigit, s, i + 1), two);
    ThenAt(digit, Then(digit, Then(digit, digit)), s, i, 1, 3, Fits(IsDigit, s, i), three);
  }

  predicate DayAt(s: string, i: nat) {
    Fits(x => x == '-', s, i) && Fits(UpToThree, s, i + 1) && Fits(IsDigit, s, i + 2)
  }

  predicate MonthAt(s: string, i: nat) {
    Fits(x => x == '-', s, i) && Fits(UpToOne, s, i + 1) && Fits(IsDigit, s, i + 2)
  }

  const DASH_DAY := Then(Exactly("-"), DAY)

  lemma DayTakes(s: string, i: nat)
    ensures FixedAt(DASH_DAY, s, i, 3, DayAt(s, i))
  {
    TextAt('-', s, i);
    TwoAt(UpToThree, IsDigit, s, i + 1);
    ThenAt(Exactly("-"), DAY, s, i, 1, 2, Fits(x => x == '-', s, i),
           Fits(UpToThree, s, i + 1) && Fits(IsDigit, s, i + 2));
  }

  lemma MonthTakes(s: string, i: nat)
    ensures FixedAt(Then(Exactly("-"), Then(MONTH, DASH_DAY)), s, i, 6, MonthAt(s, i) && DayAt(s, i + 3))
  {
    var month := Fits(UpToOne, s, i + 1) && Fits(IsDigit, s, i + 2);
    TwoAt(UpToOne, IsDigit, s, i + 1);
    DayTakes(s, i + 3);
    ThenAt(MONTH, DASH_DAY, s, i + 1, 2, 3, month, DayAt(s, i + 3));
    TextAt('-', s, i);
    ThenAt(Exactly("-"), Then(MONTH, DASH_DAY), s, i, 1, 5, Fits(x => x == '-', s, i), month && DayAt(s, i + 3));
  }

  predicate DateAt(s: string, i: nat) {
    YearAt(s, i) && MonthAt(s, i + 4) && DayAt(s, i + 7)
  }

  lemma DateTakesAt(s: string, i: nat)
    ensures FixedAt(DATE, s, i, 10, DateAt(s, i))
  {
    YearTakes(s, i);
    MonthTakes(s, i + 4);
    ThenAt(YEAR, Then(Exactly("-"), Then(MONTH, DASH_DAY)), s, i, 4, 6, YearAt(s, i),
           MonthAt(s, i + 4) && DayAt(s, i + 7));
  }

  lemma DateTextTakes(s: string)
    ensures Eat(DATE, s) == Rest(DateText(s))
    ensures DateText(s).Some? ==> DateText(s).value.0 == Before(s, DateText(s).value.1)
  {
    DateTakesAt(s, 0);
    assert s[0..] == s;
  }

  /** What takes characters of a fixed shape and then goes on. */
  lemma GoesOnAt(a: Peg, b: Peg, s: string, i: nat, n: nat, ok: bool)
    requires i <= |s| && FixedAt(a, s, i, n, ok)
    ensures Eat(Then(a, b), s[i..]) == if ok then Eat(b, s[i + n..]) else None
  {
    ThenIs(a, b, s[i..]);
  }

  lemma FractionTakes(s: string)
    ensures Eat(Maybe(NANOSEC), s) == Some(AfterFraction(s))
  {
    ThenIs(Exactly("."), DIGITS, s);
    ExactlyIs(".", s);
    OneChar('.', s);
    if s != "" {
      DigitsTake(s[1..]);
    }
  }

  function AfterTime(s: string): (r: Option<string>)
    ensures r.Some? ==> |r.value| < |s|
  {
    var rest := AfterFraction(s);
    if rest == "" || rest[0] != 'Z' then None else Some(rest[1..])
  }

  lemma AfterSecondsTake(s: string)
    ensures Eat(AFTER_SECONDS, s) == AfterTime(s)
  {
    ThenIs(Maybe(NANOSEC), Exactly("Z"), s);
    FractionTakes(s);
    ExactlyIs("Z", AfterFraction(s));
    OneChar('Z', AfterFraction(s));
  }

  predicate MinSecAt(s: string, i: nat) {
    Fits(UpToFive, s, i) && Fits(IsDigit, s, i + 1)
  }

  predicate TimeAt(s: string, i: nat) {
    && Fits(UpToTwo, s, i) && Fits(IsDigit, s, i + 1) && Fits(x => x == ':', s, i + 2)
    && MinSecAt(s, i + 3) && Fits(x => x == ':', s, i + 5) && MinSecAt(s, i + 6)
  }

  lemma SecondsTake(s: string, i: nat)
    requires i <= |s|
    ensures Eat(SECONDS, s[i..]) == if MinSecAt(s, i) then AfterTime(s[i + 2..]) else None
  {
    TwoAt(UpToFive, IsDigit, s, i);
    GoesOnAt(MIN_SEC, AFTER_SECONDS, s, i, 2, MinSecAt(s, i));
    if MinSecAt(s, i) {
      AfterSecondsTake(s[i + 2..]);
    }
  }

  lemma MinutesTake(s: string, i: nat)
    requires i <= |s|
    ensures Eat(MINUTES, s[i..]) ==
            if MinSecAt(s, i) && Fits(x => x == ':', s, i + 2) && MinSecAt(s, i + 3)
            then AfterTime(s[i + 5..]) else None
  {
    TwoAt(UpToFive, IsDigit, s, i);
    GoesOnAt(MIN_SEC, Then(Exactly(":"), SECONDS), s, i, 2, MinSecAt(s, i));
    if MinSecAt(s, i) {
      TextAt(':', s, i + 2);
      GoesOnAt(Exactly(":"), SECONDS, s, i + 2, 1, Fits(x => x == ':', s, i + 2));
      if Fits(x => x == ':', s, i + 2) {
        SecondsTake(s, i + 3);
      }
    }
  }

  lemma TimeTakes(s: string, i: nat)
    requires i <= |s|
    ensures Eat(TIME, s[i..]) == if TimeAt(s, i) then AfterTime(s[i + 8..]) else None
  {
    var hour := Fits(UpToTwo, s, i) && Fits(IsDigit, s, i + 1);
    TwoAt(UpToTwo, IsDigit, s, i);
    GoesOnAt(HOUR, Then(Exactly(":"), MINUTES), s, i, 2, hour);
    if hour {
      TextAt(':', s, i + 2);
      GoesOnAt(Exactly(":"), MINUTES, s, i + 2, 1, Fits(x => x == ':', s, i + 2));
      if Fits(x => x == ':', s, i + 2) {
        MinutesTake(s, i + 3);
      }
    }
  }

  lemma DateTimeShape(s: string)
    requires |s| >= 19
    ensures DateAt(s, 0) <==> DateShape(s[..10])
    ensures TimeAt(s, 11) <==> TimeShape(s[11..19])
  {
  }

  lemma DateTimeTextTakes(s: string)
    ensures Eat(DATETIME, s) == Rest(DateTimeText(s))
    ensures DateTimeText(s).Some? ==> DateTimeText(s).value.0 == Before(s, DateTimeText(s).value.1)
  {
    assert s[0..] == s;
    DateTakesAt(s, 0);
    GoesOnAt(DATE, Then(Exactly("T"), TIME), s, 0, 10, DateAt(s, 0));
    if |s| >= 19 {
      DateTimeShape(s);
    }
    if DateAt(s, 0) {
      var t := Fits(x => x == 'T', s, 10);
      TextAt('T', s, 10);
      GoesOnAt(Exactly("T"), TIME, s, 10, 1, t);
      if t {
        TimeTakes(s, 11);
      }
    }
  }

  // ---- Operands, conditions and terms --------------------------------------

  lemma KeywordTakes(keyword: string, g: Peg, s: string)
    ensures Eat(Then(Exactly(keyword), Then(SOME_SPACES, g)), s) ==
            if Keyword(keyword, s).None? then None else Eat(g, Keyword(keyword, s).value)
  {
    ThenIs(Exactly(keyword), Then(SOME_SPACES, g), s);
    ExactlyIs(keyword, s);
    if keyword <= s {
      var a := s[|keyword|..];
      ThenIs(SOME_SPACES, g, a);
      SpacesTake(a);
    }
  }

  lemma WhereTakes(g: Peg, read: string -> Option<int>, text: Parsed<string>, s: string)
    requires Eat(g, s) == Rest(text)
    requires text.Some? ==> |text.value.1| <= |s| && text.value.0 == Before(s, text.value.1)
    ensures Eat(Where(g, t => read(t).Some?), s) == Rest(Converted(read, text))
  {
  }

  lemma DateTimeTakes(lib: Library, s: string)
    ensures Eat(DateTimeOp(lib), s) == Rest(DateTimeRule(lib, s))
  {
    var a := Keyword("TIME", s);
    KeywordTakes("TIME", Where(DATETIME, t => lib.readDateTime(t).Some?), s);
    if a.Some? {
      DateTimeTextTakes(a.value);
      WhereTakes(DATETIME, lib.readDateTime, DateTimeText(a.value), a.value);
    }
  }

  lemma DateTakes(lib: Library, s: string)
    ensures Eat(DateOp(lib), s) == Rest(DateRule(lib, s))
  {
    var a := Keyword("DATE", s);
    KeywordTakes("DATE", Where(DATE, t => lib.readDate(t).Some?), s);
    if a.Some? {
      DateTextTakes(a.value);
      WhereTakes(DATE, lib.readDate, DateText(a.value), a.value);
    }
  }

  lemma FloatTakes(lib: Library, s: string)
    ensures Eat(FloatOp(lib), s) == Rest(FloatRule(lib, s))
  {
    FloatTextTakes(s);
    WhereTakes(FLOAT, lib.readFloat, FloatText(s), s);
  }

  lemma NumberTakes(lib: Library, s: string)
    ensures Eat(Or(FloatOp(lib), Or(SIGNED, UNSIGNED)), s) ==
            if FloatRule(lib, s).Some? then Rest(FloatRule(lib, s))
            else if SignedRule(s).Some? then Rest(SignedRule(s))
            else Rest(UnsignedRule(s))
  {
    FloatTakes(lib, s);
    SignedTakes(s);
    UnsignedTakes(s);
    OrIs(SIGNED, UNSIGNED, s);
    OrIs(FloatOp(lib), Or(SIGNED, UNSIGNED), s);
  }

  lemma OperandTakes(lib: Library, s: string)
    ensures Eat(OperandPeg(lib), s) == Rest(OperandRule(lib, s))
  {
    var number := Or(FloatOp(lib), Or(SIGNED, UNSIGNED));
    DateTimeTakes(lib, s);
    DateTakes(lib, s);
    StringTakes(s);
    NumberTakes(lib, s);
    OrIs(STRING, number, s);
    OrIs(DateOp(lib), Or(STRING, number), s);
    OrIs(DateTimeOp(lib), Or(DateOp(lib), Or(STRING, number)), s);
  }

  lemma OperatorTakes(lib: Library, operator: string, s: string)
    ensures Eat(Then(SPACES, Then(Exactly(operator), Then(SPACES, OperandPeg(lib)))), s) ==
            Rest(ComparisonRule(lib, operator, s))
  {
    var behind := Then(SPACES, OperandPeg(lib));
    ThenIs(SPACES, Then(Exactly(operator), behind), s);
    SpacesTake(s);
    var a := Spaces(s);
    ThenIs(Exactly(operator), behind, a);
    ExactlyIs(operator, a);
    if operator <= a {
      var b := a[|operator|..];
      ThenIs(SPACES, OperandPeg(lib), b);
      SpacesTake(b);
      OperandTakes(lib, Spaces(b));
    }
  }

  /** What an alternative takes, given what it takes behind the key. */
  function BehindKey<T>(s: string, behind: string -> Parsed<T>): Option<string> {
    if TagRule(s).None? then None else Rest(behind(TagRule(s).value.1))
  }

  lemma ComparisonTakes(lib: Library, operator: string, s: string)
    ensures Eat(ComparisonPeg(lib, operator), s) == BehindKey(s, a => ComparisonRule(lib, operator, a))
  {
    ThenIs(TAG, Then(SPACES, Then(Exactly(operator), Then(SPACES, OperandPeg(lib)))), s);
    TagTakes(s);
    if TagRule(s).Some? {
      OperatorTakes(lib, operator, TagRule(s).value.1);
    }
  }

  lemma WordTakes(word: string, g: Peg, s: string)
    ensures Eat(Then(SOME_SPACES, Exactly(word)), s) == WordRule(word, s)
    ensures Eat(Then(SOME_SPACES, Then(Exactly(word), g)), s) ==
            if WordRule(word, s).None? then None else Eat(g, WordRule(word, s).value)
  {
    ThenIs(SOME_SPACES, Exactly(word), s);
    ThenIs(SOME_SPACES, Then(Exactly(word), g), s);
    SpacesTake(s);
    if SomeSpaces(s).Some? {
      var a := SomeSpaces(s).value;
      ExactlyIs(word, a);
      ThenIs(Exactly(word), g, a);
    }
  }

  lemma ContainsTakes(s: string)
    ensures Eat(CONTAINS, s) == BehindKey(s, ContainsRule)
  {
    var text := Then(SOME_SPACES, STRING);
    ThenIs(TAG, Then(SOME_SPACES, Then(Exactly("CONTAINS"), text)), s);
    TagTakes(s);
    if TagRule(s).Some? {
      var a := TagRule(s).value.1;
      WordTakes("CONTAINS", text, a);
      if WordRule("CONTAINS", a).Some? {
        var b := WordRule("CONTAINS", a).value;
        ThenIs(SOME_SPACES, STRING, b);
        SpacesTake(b);
        if SomeSpaces(b).Some? {
          StringTakes(SomeSpaces(b).value);
        }
      }
    }
  }

  lemma ExistsTakes(s: string)
    ensures Eat(EXISTS, s) == if TagRule(s).None? then None else WordRule("EXISTS", TagRule(s).value.1)
  {
    ThenIs(TAG, Then(SOME_SPACES, Exactly("EXISTS")), s);
    TagTakes(s);
    if TagRule(s).Some? {
      WordTakes("EXISTS", STRING, TagRule(s).value.1);
    }
  }

  /** What a comparison behind a key leaves, or else what the later alternatives leave. */
  function OrElse(lib: Library, operator: string, a: string, later: Option<string>): Option<string> {
    if ComparisonRule(lib, operator, a).Some? then Rest(ComparisonRule(lib, operator, a)) else later
  }

  lemma ComparisonOrElse(lib: Library, operator: string, others: Peg, s: string)
    ensures Eat(Or(ComparisonPeg(lib, operator), others), s) ==
            if TagRule(s).None? then Eat(others, s) else OrElse(lib, operator, TagRule(s).value.1, Eat(others, s))
  {
    ComparisonTakes(lib, operator, s);
    OrIs(ComparisonPeg(lib, operator), others, s);
  }

  function WordsLeave(a: string): Option<string> {
    if ContainsRule(a).Some? then Rest(ContainsRule(a)) else WordRule("EXISTS", a)
  }

  lemma WordsTake(s: string)
    ensures Eat(Or(CONTAINS, EXISTS), s) == if TagRule(s).None? then None else WordsLeave(TagRule(s).value.1)
  {
    ContainsTakes(s);
    ExistsTakes(s);
    OrIs(CONTAINS, EXISTS, s);
  }

  /** What the alternatives for an operation leave, in their order. */
  function OperationLeaves(lib: Library, a: string): Option<string> {
    OrElse(lib, "=", a, OrElse(lib, "<=", a, OrElse(lib, "<", a,
    OrElse(lib, ">=", a, OrElse(lib, ">", a, WordsLeave(a))))))
  }

  lemma AlternativesTake(lib: Library, s: string)
    ensures Eat(ConditionPeg(lib), s) == if TagRule(s).None? then None else OperationLeaves(lib, TagRule(s).value.1)
  {
    var words := Or(CONTAINS, EXISTS);
    var gt := Or(ComparisonPeg(lib, ">"), words);
    var gte := Or(ComparisonPeg(lib, ">="), gt);
    var lt := Or(ComparisonPeg(lib, "<"), gte);
    WordsTake(s);
    ComparisonOrElse(lib, ">", words, s);
    ComparisonOrElse(lib, ">=", gt, s);
    ComparisonOrElse(lib, "<", gte, s);
    ComparisonOrElse(lib, "<=", lt, s);
    ComparisonOrElse(lib, "=", Or(ComparisonPeg(lib, "<="), lt), s);
  }

  lemma OperationRest(lib: Library, a: string)
    ensures Rest(OperationRule(lib, a)) == OperationLeaves(lib, a)
  {
  }

  /** Every alternative reads the key anew; the rule reads it once. */
  lemma ConditionTakes(lib: Library, s: string)
    ensures Eat(ConditionPeg(lib), s) == Rest(ConditionRule(lib, s))
  {
    AlternativesTake(lib, s);
    if TagRule(s).Some? {
      OperationRest(lib, TagRule(s).value.1);
    }
  }

  lemma NameTakes(s: string)
    ensures Eat(EVENT_NAME, s) ==
            if Literal("NewBlock", s).Some? then Literal("NewBlock", s) else Literal("Tx", s)
  {
    OrIs(Exactly("NewBlock"), Exactly("Tx"), s);
    ExactlyIs("NewBlock", s);
    ExactlyIs("Tx", s);
  }

  /** The name of an event between quotes. */
  function QuotedName(s: string): (r: Option<string>) {
    match Literal("'", s)
    case None => None
    case Some(c) =>
      var name := if Literal("NewBlock", c).Some? then Literal("NewBlock", c) else Literal("Tx", c);
      if name.None? then None else Literal("'", name.value)
  }

  lemma QuotedNameTakes(s: string)
    ensures Eat(QUOTED_NAME, s) == QuotedName(s)
  {
    ThenIs(Exactly("'"), Then(EVENT_NAME, Exactly("'")), s);
    ExactlyIs("'", s);
    if Literal("'", s).Some? {
      var c := Literal("'", s).value;
      ThenIs(EVENT_NAME, Exactly("'"), c);
      NameTakes(c);
      if Eat(EVENT_NAME, c).Some? {
        ExactlyIs("'", Eat(EVENT_NAME, c).value);
      }
    }
  }

  /** What is left behind the sign of equality. */
  function AfterEquals(s: string): Option<string> {
    if Literal("=", Spaces(s)).None? then None else QuotedName(Spaces(Literal("=", Spaces(s)).value))
  }

  lemma AfterEqualsTakes(s: string)
    ensures Eat(Then(SPACES, Then(Exactly("="), Then(SPACES, QUOTED_NAME))), s) == AfterEquals(s)
  {
    ThenIs(SPACES, Then(Exactly("="), Then(SPACES, QUOTED_NAME)), s);
    SpacesTake(s);
    ThenIs(Exactly("="), Then(SPACES, QUOTED_NAME), Spaces(s));
    ExactlyIs("=", Spaces(s));
    if Literal("=", Spaces(s)).Some? {
      var b := Literal("=", Spaces(s)).value;
      ThenIs(SPACES, QUOTED_NAME, b);
      SpacesTake(b);
      QuotedNameTakes(Spaces(b));
    }
  }

  lemma EventTypeLeaves(s: string)
    ensures Rest(EventTypeRule(s)) ==
            if Literal("tm.event", s).None? then None else AfterEquals(Literal("tm.event", s).value)
  {
  }

  lemma EventTypeTakes(s: string)
    ensures Eat(EVENT_TYPE, s) == Rest(EventTypeRule(s))
  {
    ThenIs(Exactly("tm.event"), Then(SPACES, Then(Exactly("="), Then(SPACES, QUOTED_NAME))), s);
    ExactlyIs("tm.event", s);
    EventTypeLeaves(s);
    if Literal("tm.event", s).Some? {
      AfterEqualsTakes(Literal("tm.event", s).value);
    }
  }

  lemma TermTakes(lib: Library, s: string)
    ensures Eat(TermPeg(lib), s) == Rest(TermRule(lib, s))
  {
    EventTypeTakes(s);
    ConditionTakes(lib, s);
    OrIs(EVENT_TYPE, ConditionPeg(lib), s);
  }

  // ---- Whole queries -------------------------------------------------------

  lemma SeparatorTakes(g: Peg, s: string)
    ensures Eat(AND, s) == Separator(s)
    ensures Eat(Then(AND, g), s) == if Separator(s).None? then None else Eat(g, Separator(s).value)
  {
    WordTakes("AND", SOME_SPACES, s);
    if WordRule("AND", s).Some? {
      SpacesTake(WordRule("AND", s).value);
    }
    ThenIs(AND, g, s);
  }

  lemma {:induction false} MoreTermsTake(lib: Library, s: string)
    ensures Eat(Repeat(Then(AND, TermPeg(lib))), s) == Some(MoreTerms(lib, s).1)
    decreases |s|
  {
    SeparatorTakes(TermPeg(lib), s);
    if Separator(s).Some? {
      var a := Separator(s).value;
      TermTakes(lib, a);
      if TermRule(lib, a).Some? {
        MoreTermsTake(lib, TermRule(lib, a).value.1);
      }
    }
  }

  /** A text is a query if and only if the grammar takes all of it. */
  lemma QueryIffGrammar(lib: Library, s: string)
    ensures Parse(lib, s) != Err(CannotParse) <==> Eat(QueryGrammarPeg(lib), s) == Some("")
  {
    var more := Repeat(Then(AND, TermPeg(lib)));
    TermTakes(lib, s);
    ThenIs(TermPeg(lib), more, s);
    if TermRule(lib, s).Some? {
      MoreTermsTake(lib, TermRule(lib, s).value.1);
    }
  }
}
