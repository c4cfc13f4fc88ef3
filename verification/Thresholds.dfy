/** The threshold grammar of an invalidation condition: which texts it reads, and as which comparison. */
module Thresholds {
  import opened Options
  import opened Texts

  datatype Operator = Less | LessEqual | Greater | GreaterEqual

  datatype Threshold = Threshold(op: Operator, bound: real) {
    predicate Holds(value: real) {
      match op
      case Less => value < bound
      case LessEqual => value <= bound
      case Greater => value > bound
      case GreaterEqual => value >= bound
    }
  }

  predicate IsDigit(c: char) {
    '0' <= c <= '9'
  }

  predicate AllDigits(s: string) {
    forall c :: c in s ==> IsDigit(c)
  }

  predicate AllSpace(s: string) {
    forall c :: c in s ==> IsSpace(c)
  }

  /** The number a digit text denotes. */
  function Natural(digits: string): nat
    requires AllDigits(digits)
  {
    if digits == [] then 0
    else
      var last := digits[|digits| - 1];
      assert last in digits;
      10 * Natural(digits[..|digits| - 1]) + (last as int - '0' as int)
  }

  function Power10(n: nat): (r: nat)
    ensures r > 0
  {
    if n == 0 then 1 else 10 * Power10(n - 1)
  }

  function Decimal(whole: string, fraction: string): real
    requires AllDigits(whole) && AllDigits(fraction)
  {
    Natural(whole) as real + Natural(fraction) as real / Power10(|fraction|) as real
  }

  /** How many digits the text starts with. */
  function Digits(s: string): (n: nat)
    ensures n <= |s| && AllDigits(s[..n]) && (n < |s| ==> !IsDigit(s[n]))
  {
    if s == [] || !IsDigit(s[0]) then 0
    else
      var n := 1 + Digits(s[1..]);
      assert s[..n] == [s[0]] + s[1..][..n - 1];
      n
  }

  function ReadNumber(s: string): Option<real> {
    var n := Digits(s);
    var rest := s[n..];
    if n == 0 then None
    else if rest == "" || rest == "%" then Some(Decimal(s[..n], ""))
    else if rest[0] != '.' then None
    else
      var m := Digits(rest[1..]);
      var tail := rest[1 + m..];
      if m > 0 && (tail == "" || tail == "%") then Some(Decimal(s[..n], rest[1..][..m])) else None
  }

  function LowerChar(c: char): char {
    if 'A' <= c <= 'Z' then c - 'A' + 'a' else c
  }

  function Lower(s: string): (r: string)
    ensures |r| == |s| && forall i :: 0 <= i < |s| ==> r[i] == LowerChar(s[i])
  {
    if s == [] then [] else [LowerChar(s[0])] + Lower(s[1..])
  }

  function ReadBound(op: Operator, s: string): Option<Threshold> {
    match ReadNumber(StripFront(s))
    case Some(bound) => Some(Threshold(op, bound))
    case None => None
  }

  /** Reads a threshold text; None is a text outside the grammar, which never triggers anything. */
  function ReadThreshold(text: string): Option<Threshold> {
    ReadStripped(Strip(text))
  }

  function ReadStripped(s: string): Option<Threshold> {
    if s != "" && s[0] in {'<', '>'} then
      if |s| > 1 && s[1] == '=' then ReadBound(if s[0] == '<' then LessEqual else GreaterEqual, s[2..])
      else ReadBound(if s[0] == '<' then Less else Greater, s[1..])
    else if |s| > 5 && Lower(s[..5]) in {"below", "above"} && IsSpace(s[5]) then
      ReadBound(if Lower(s[..5]) == "below" then Less else Greater, s[5..])
    else None
  }

  // ---------------------------------------------------------------------------------------------
  // The grammar, independently of the reader
  // ---------------------------------------------------------------------------------------------

  /** A comparison, a gap, digits, perhaps a point and more digits, perhaps a percent sign. */
  datatype Shape = Shape(word: string, gap: string, whole: string, fraction: string, percent: bool) {
    predicate IsSymbol() {
      word in {"<", "<=", ">", ">="}
    }

    predicate WellFormed() {
      && (IsSymbol() || (|word| == 5 && Lower(word) in {"below", "above"} && gap != ""))
      && AllSpace(gap) && whole != "" && AllDigits(whole) && AllDigits(fraction)
    }

    function Number(): string {
      whole + (if fraction == "" then "" else "." + fraction) + (if percent then "%" else "")
    }

    function Text(): string {
      word + gap + Number()
    }

    function Op(): Operator {
      if word == "<" || Lower(word) == "below" then Less
      else if word == "<=" then LessEqual
      else if word == ">=" then GreaterEqual
      else Greater
    }

    function Meaning(): Threshold
      requires WellFormed()
    {
      Threshold(Op(), Decimal(whole, fraction))
    }
  }

  lemma {:induction false} DigitsOf(digits: string, rest: string)
    requires AllDigits(digits) && (rest == "" || !IsDigit(rest[0]))
    ensures Digits(digits + rest) == |digits|
  {
    if digits == "" {
      assert digits + rest == rest;
    } else {
      assert digits[0] in digits;
      assert (digits + rest)[1..] == digits[1..] + rest;
      DigitsOf(digits[1..], rest);
    }
  }

  lemma {:induction false} GapIsSkipped(gap: string, s: string)
    requires AllSpace(gap) && (s == "" || !IsSpace(s[0]))
    ensures StripFront(gap + s) == s
  {
    if gap == "" {
      assert gap + s == s;
    } else {
      assert gap[0] in gap;
      assert (gap + s)[1..] == gap[1..] + s;
      GapIsSkipped(gap[1..], s);
    }
  }

  lemma WholeIsRead(whole: string, tail: string)
    requires AllDigits(whole) && whole != "" && tail in {"", "%"}
    ensures ReadNumber(whole + tail) == Some(Decimal(whole, ""))
  {
    hide Decimal;
    DigitsOf(whole, tail);
    assert (whole + tail)[..|whole|] == whole && (whole + tail)[|whole|..] == tail;
  }

  lemma FractionIsRead(whole: string, fraction: string, tail: string)
    requires AllDigits(whole) && whole != "" && AllDigits(fraction) && fraction != "" && tail in {"", "%"}
    ensures ReadNumber(whole + ("." + (fraction + tail))) == Some(Decimal(whole, fraction))
  {
    hide Decimal;
    var rest := "." + (fraction + tail);
    DigitsOf(whole, rest);
    assert (whole + rest)[..|whole|] == whole && (whole + rest)[|whole|..] == rest;
    assert rest[1..] == fraction + tail;
    DigitsOf(fraction, tail);
    assert (fraction + tail)[..|fraction|] == fraction;
    assert rest[1 + |fraction|..] == tail;
  }

  lemma NumbersAreRead(shape: Shape)
    requires shape.WellFormed()
    ensures ReadNumber(shape.Number()) == Some(Decimal(shape.whole, shape.fraction))
    ensures shape.Number() != "" && IsDigit(shape.Number()[0])
    ensures !IsSpace(shape.Number()[|shape.Number()| - 1])
  {
    hide Decimal, ReadNumber;
    var tail := if shape.percent then "%" else "";
    assert shape.whole[0] in shape.whole;
    assert shape.whole[|shape.whole| - 1] in shape.whole;
    if shape.fraction == "" {
      WholeIsRead(shape.whole, tail);
      assert shape.Number() == shape.whole + tail;
    } else {
      assert shape.fraction[|shape.fraction| - 1] in shape.fraction;
      FractionIsRead(shape.whole, shape.fraction, tail);
      assert shape.Number() == shape.whole + ("." + (shape.fraction + tail));
    }
  }

  lemma BoundsAreRead(op: Operator, shape: Shape)
    requires shape.WellFormed()
    ensures ReadBound(op, shape.gap + shape.Number()) == Some(Threshold(op, Decimal(shape.whole, shape.fraction)))
  {
    NumbersAreRead(shape);
    GapIsSkipped(shape.gap, shape.Number());
  }

  lemma SymbolIsRead(word: string, rest: string)
    requires word in {"<", "<=", ">", ">="} && rest != "" && rest[0] != '='
    ensures ReadStripped(word + rest)
         == ReadBound(if word == "<" then Less else if word == "<=" then LessEqual else if word == ">=" then GreaterEqual else Greater, rest)
  {
    var s := word + rest;
    hide ReadBound;
    assert s[|word|..] == rest && s[0] == word[0];
  }

  lemma WordIsRead(word: string, rest: string)
    requires |word| == 5 && Lower(word) in {"below", "above"} && rest != "" && IsSpace(rest[0])
    ensures ReadStripped(word + rest) == ReadBound(if Lower(word) == "below" then Less else Greater, rest)
  {
    var s := word + rest;
    assert Lower(word)[0] == LowerChar(word[0]);
    hide ReadBound, Lower, IsSpace;
    assert s[..5] == word && s[5..] == rest && s[0] == word[0];
  }

  lemma NotAWord(word: string)
    requires word in {"<", "<=", ">", ">="}
    ensures Lower(word) != "below"
  {
    assert |Lower(word)| == |word|;
  }

  lemma NotASymbol(word: string)
    requires |word| == 5
    ensures word !in {"<", "<=", ">", ">="}
  {
  }

  /** Every text of the grammar is read, as the comparison it denotes. */
  lemma GrammarIsRead(shape: Shape)
    requires shape.WellFormed()
    ensures ReadThreshold(shape.Text()) == Some(shape.Meaning())
  {
    var word, rest := shape.word, shape.gap + shape.Number();
    TextIsStripped(shape);
    assert shape.Text() == word + rest;
    RestStarts(shape);
    BoundsAreRead(shape.Op(), shape);
    hide ReadStripped, ReadBound, Strip, Decimal, Lower, IsSpace, AllDigits, AllSpace;
    if shape.IsSymbol() {
      SymbolIsRead(word, rest);
      NotAWord(word);
    } else {
      WordIsRead(word, rest);
      NotASymbol(word);
    }
  }

  lemma RestStarts(shape: Shape)
    requires shape.WellFormed()
    ensures var rest := shape.gap + shape.Number();
            rest != "" && rest[0] != '=' && (shape.gap != "" ==> IsSpace(rest[0]))
  {
    NumbersAreRead(shape);
    hide ReadNumber;
    if shape.gap != "" {
      assert shape.gap[0] in shape.gap;
    }
  }

  lemma TextIsStripped(shape: Shape)
    requires shape.WellFormed()
    ensures Strip(shape.Text()) == shape.Text()
  {
    hide ReadNumber, Strip;
    var s, number := shape.Text(), shape.Number();
    NumbersAreRead(shape);
    assert s[|s| - 1] == number[|number| - 1];
    assert s[0] == shape.word[0];
    assert !shape.IsSymbol() ==> Lower(shape.word)[0] == LowerChar(shape.word[0]);
    assert Stripped(s);
    StripOfStripped(s);
  }

  lemma StripOfStripped(s: string)
    requires Stripped(s)
    ensures Strip(s) == s
  {
  }

  lemma SkippedIsGap(s: string) returns (gap: string)
    ensures s == gap + StripFront(s) && AllSpace(gap)
    ensures s != "" && IsSpace(s[0]) ==> gap != ""
  {
    gap := StrippedFront(s);
  }

  lemma ReadNumbersHaveShape(s: string) returns (whole: string, fraction: string, percent: bool)
    requires ReadNumber(s).Some?
    ensures AllDigits(whole) && whole != "" && AllDigits(fraction)
    ensures s == whole + (if fraction == "" then "" else "." + fraction) + (if percent then "%" else "")
  {
    var n := Digits(s);
    var rest := s[n..];
    whole := s[..n];
    if rest == "" || rest == "%" {
      fraction, percent := "", rest == "%";
    } else {
      var m := Digits(rest[1..]);
      fraction, percent := rest[1..][..m], rest[1 + m..] == "%";
      assert rest == "." + fraction + rest[1 + m..];
    }
    assert s == whole + rest;
  }

  /** And nothing else is read: a text that is read is one of the grammar, up to surrounding space. */
  lemma OnlyTheGrammarIsRead(text: string) returns (shape: Shape)
    requires ReadThreshold(text).Some?
    ensures shape.WellFormed() && Strip(text) == shape.Text() && ReadThreshold(text) == Some(shape.Meaning())
  {
    var s := Strip(text);
    var word, after := ReadSplits(s);
    var gap := SkippedIsGap(after);
    hide ReadStripped, IsSpace, AllSpace, AllDigits, Lower;
    var whole, fraction, percent := ReadNumbersHaveShape(StripFront(after));
    shape := Shape(word, gap, whole, fraction, percent);
    assert shape.Number() == StripFront(after);
    assert s == shape.Text();
    hide StripFront, Strip, ReadNumber;
    GrammarIsRead(shape);
    TextIsStripped(shape);
  }

  lemma ReadSplits(s: string) returns (word: string, after: string)
    requires ReadStripped(s).Some?
    ensures s == word + after && ReadNumber(StripFront(after)).Some?
    ensures word in {"<", "<=", ">", ">="}
         || (|word| == 5 && Lower(word) in {"below", "above"} && after != "" && IsSpace(after[0]))
  {
    hide ReadNumber, StripFront, Lower, IsSpace;
    var n := if s[0] in {'<', '>'} then (if |s| > 1 && s[1] == '=' then 2 else 1) else 5;
    word, after := s[..n], s[n..];
    if s[0] in {'<', '>'} {
      assert word == if n == 2 then [s[0], s[1]] else [s[0]];
    }
  }

  // ---------------------------------------------------------------------------------------------
  // What a text denotes, spelled out
  // ---------------------------------------------------------------------------------------------

  lemma {:induction false} Power10Adds(m: nat, n: nat)
    ensures Power10(m + n) == Power10(m) * Power10(n)
  {
    if n > 0 {
      Power10Adds(m, n - 1);
      assert 10 * (Power10(m) * Power10(n - 1)) == Power10(m) * (10 * Power10(n - 1));
    }
  }

  /** Digits are read in base ten: a digit is its value, and what is put in front counts ten times more for each
      digit behind it. */
  lemma {:induction false} DigitsDenote(front: string, back: string)
    requires AllDigits(front) && AllDigits(back)
    ensures AllDigits(front + back)
    ensures Natural("") == 0 && (|back| == 1 ==> Natural(back) == back[0] as int - '0' as int)
    ensures Power10(0) == 1 && Power10(1) == 10 && Power10(|front| + |back|) == Power10(|front|) * Power10(|back|)
    ensures Natural(front + back) == Natural(front) * Power10(|back|) + Natural(back)
  {
    Power10Adds(|front|, |back|);
    if back == "" {
      assert front + back == front;
    } else {
      var n := |back| - 1;
      assert back[n] in back;
      DigitsDenote(front, back[..n]);
      assert (front + back)[..|front + back| - 1] == front + back[..n];
      var a, p := Natural(front), Power10(n);
      assert 10 * (a * p) == a * (10 * p);
      assert |back| == 1 ==> back[..0] == "";
    }
  }

  /** Digits behind the point count as if the point were not there, divided by ten for each of them. */
  lemma PointShiftsDigits(whole: string, fraction: string)
    requires AllDigits(whole) && AllDigits(fraction)
    ensures AllDigits(whole + fraction)
    ensures Decimal(whole, fraction) * Power10(|fraction|) as real == Natural(whole + fraction) as real
  {
    hide Natural, Power10;
    var a, b, p := Natural(whole), Natural(fraction), Power10(|fraction|);
    MixedNumber(a, b, p);
    assert Decimal(whole, fraction) == a as real + b as real / p as real;
    hide Decimal;
    DigitsJoin(whole, fraction);
  }

  lemma DigitsJoin(whole: string, fraction: string)
    requires AllDigits(whole) && AllDigits(fraction)
    ensures AllDigits(whole + fraction)
    ensures Natural(whole + fraction) == Natural(whole) * Power10(|fraction|) + Natural(fraction)
  {
    DigitsDenote(whole, fraction);
  }

  lemma MixedNumber(a: nat, b: nat, p: nat)
    requires 0 < p
    ensures (a as real + b as real / p as real) * p as real == (a * p + b) as real
  {
    var q := b as real / p as real;
    assert q * p as real == b as real;
    assert (a as real + q) * p as real == a as real * p as real + q * p as real;
    assert (a * p) as real == a as real * p as real;
  }

  /** The letter, or its capital, or the long form of s that folds to it. */
  predicate SameLetter(c: char, letter: char) {
    || c == letter
    || ('a' <= letter <= 'z' && c as int == letter as int - 32)
    || (letter == 's' && c == '\U{17F}')
  }

  /** The name, in any mixture of cases. */
  predicate Spells(s: string, name: string) {
    |s| == |name| && forall k :: 0 <= k < |s| ==> SameLetter(s[k], name[k])
  }

  lemma LowerSpells(s: string, name: string)
    requires name in {"below", "above"}
    ensures Lower(s) == name <==> Spells(s, name)
  {
    if Spells(s, name) {
      forall k | 0 <= k < |s| ensures Lower(s)[k] == name[k] {
        assert SameLetter(s[k], name[k]);
      }
    }
    if Lower(s) == name {
      forall k | 0 <= k < |s| ensures SameLetter(s[k], name[k]) {
        assert Lower(s)[k] == LowerChar(s[k]);
      }
    }
  }

  /** A comparison text: a symbol, or a word and a gap, then digits, perhaps with a point, perhaps per cent. */
  predicate InGrammar(shape: Shape) {
    && (shape.word in {"<", "<=", ">", ">="} || ((Spells(shape.word, "below") || Spells(shape.word, "above")) && shape.gap != ""))
    && (forall c :: c in shape.gap ==> IsSpace(c))
    && shape.whole != "" && (forall c :: c in shape.whole + shape.fraction ==> c in "0123456789")
  }

  lemma DigitsAreDigits(whole: string, fraction: string)
    ensures (forall c :: c in whole + fraction ==> c in "0123456789") <==> AllDigits(whole) && AllDigits(fraction)
  {
    forall c: char ensures IsDigit(c) <==> c in "0123456789" {
      assert IsDigit(c) ==> "0123456789"[c as int - 48] == c;
    }
  }

  /** The value is on the side of the bound that the symbol or word names. */
  predicate Compares(shape: Shape, value: real)
    requires AllDigits(shape.whole) && AllDigits(shape.fraction)
  {
    var bound := Decimal(shape.whole, shape.fraction);
    || ((shape.word == "<" || Spells(shape.word, "below")) && value < bound)
    || (shape.word == "<=" && value <= bound)
    || ((shape.word == ">" || Spells(shape.word, "above")) && value > bound)
    || (shape.word == ">=" && value >= bound)
  }

  /** The text, stripped, is this comparison text, and the value is on that side of its bound. */
  predicate Asserts(text: string, shape: Shape, value: real) {
    InGrammar(shape) && AllDigits(shape.whole) && AllDigits(shape.fraction) && Strip(text) == shape.Text() && Compares(shape, value)
  }

  lemma GrammarIsWellFormed(shape: Shape)
    ensures InGrammar(shape) <==> shape.WellFormed()
  {
    DigitsAreDigits(shape.whole, shape.fraction);
    LowerSpells(shape.word, "below");
    LowerSpells(shape.word, "above");
    hide Lower, Spells, IsSpace, AllDigits;
  }

  lemma MeaningCompares(shape: Shape, value: real)
    requires shape.WellFormed()
    ensures shape.Meaning().Holds(value) <==> Compares(shape, value)
  {
    LowerSpells(shape.word, "below");
    LowerSpells(shape.word, "above");
    assert |Lower(shape.word)| == |shape.word|;
    assert Spells(shape.word, "below") ==> |shape.word| == 5;
    assert Spells(shape.word, "above") ==> |shape.word| == 5;
    hide Decimal, IsSpace, AllDigits, AllSpace;
  }

  /** A threshold text holds of a value if and only if, stripped, it is a comparison text, and the value is on that
      side of its bound. */
  lemma HoldsIffInGrammar(text: string, value: real)
    ensures ReadThreshold(text).Some? && ReadThreshold(text).value.Holds(value) <==>
            exists shape: Shape :: Asserts(text, shape, value)
  {
    hide ReadThreshold, Asserts, Threshold.Holds;
    if ReadThreshold(text).Some? && ReadThreshold(text).value.Holds(value) {
      var shape := OnlyTheGrammarIsRead(text);
      TextAsserts(text, shape, value);
    }
    if exists shape: Shape :: Asserts(text, shape, value) {
      var shape: Shape :| Asserts(text, shape, value);
      AssertedIsRead(text, shape, value);
    }
  }

  lemma TextAsserts(text: string, shape: Shape, value: real)
    requires shape.WellFormed() && Strip(text) == shape.Text() && shape.Meaning().Holds(value)
    ensures Asserts(text, shape, value)
  {
    GrammarIsWellFormed(shape);
    MeaningCompares(shape, value);
    hide Compares, Threshold.Holds, Shape.Text;
  }

  lemma AssertedIsRead(text: string, shape: Shape, value: real)
    requires Asserts(text, shape, value)
    ensures ReadThreshold(text).Some? && ReadThreshold(text).value.Holds(value)
  {
    GrammarIsWellFormed(shape);
    MeaningCompares(shape, value);
    hide Compares, InGrammar, Threshold.Holds, ReadStripped, Shape.Text, Shape.WellFormed;
    TextIsStripped(shape);
    GrammarIsRead(shape);
  }
}
