/** Text helpers applied to label text: reading a fiat amount such as
    "USD 12.50" or "12.50 USD" out of free text, and turning hashtags into
    badge links. */
module LabelUtils {
  import opened Wrappers
  import opened Text
  import Rationals

  /** The currency codes, in the order they are tried. */
  const Currencies: seq<string> := ["USD", "EUR", "GBP", "CAD", "CHF", "AUD", "JPY"]

  predicate IsCode(code: string) {
    |code| == 3 && forall k :: 0 <= k < 3 ==> 'A' <= code[k] <= 'Z'
  }

  lemma CurrenciesAreCodes()
    ensures forall k :: 0 <= k < |Currencies| ==> IsCode(Currencies[k])
  {
  }

  // ---------------------------------------------------------------------
  // Numbers: the group `\d+(?:\.\d+)?`
  // ---------------------------------------------------------------------

  /** End of the run of digits that starts at i. */
  function DigitRunEnd(s: string, i: nat): (e: nat)
    requires i <= |s|
    ensures i <= e <= |s|
    ensures forall k :: i <= k < e ==> IsDigit(s[k])
    ensures e == |s| || !IsDigit(s[e])
    decreases |s| - i
  {
    if i < |s| && IsDigit(s[i]) then DigitRunEnd(s, i + 1) else i
  }

  lemma {:induction false} DigitRunEndAt(s: string, i: nat, e: nat)
    requires i <= e <= |s|
    requires forall k :: i <= k < e ==> IsDigit(s[k])
    requires e == |s| || !IsDigit(s[e])
    ensures DigitRunEnd(s, i) == e
    decreases e - i
  {
    if i < e {
      DigitRunEndAt(s, i + 1, e);
    }
  }

  /** The whole of t is matched by `\d+(?:\.\d+)?`. */
  predicate NumberShape(t: string) {
    (|t| > 0 && AllDigits(t))
    || (exists d :: 0 < d < |t| - 1 && t[d] == '.' && AllDigits(t[..d]) && AllDigits(t[d + 1..]))
  }

  lemma NumberShapeStartsWithDigit(t: string)
    requires NumberShape(t)
    ensures |t| > 0 && IsDigit(t[0])
  {
    if !(|t| > 0 && AllDigits(t)) {
      var d :| 0 < d < |t| - 1 && t[d] == '.' && AllDigits(t[..d]) && AllDigits(t[d + 1..]);
      assert t[..d][0] == t[0];
    }
  }

  /** End of the greedy match of the number group at i. */
  function NumberEnd(s: string, i: nat): (e: nat)
    requires i < |s| && IsDigit(s[i])
    ensures i < e <= |s| && NumberShape(s[i..e])
  {
    var d := DigitRunEnd(s, i);
    if d + 1 < |s| && s[d] == '.' && IsDigit(s[d + 1]) then
      var f := DigitRunEnd(s, d + 1);
      var t := s[i..f];
      assert t[..d - i] == s[i..d] && t[d - i + 1..] == s[d + 1..f];
      assert 0 < d - i < |t| - 1 && t[d - i] == '.';
      f
    else
      assert AllDigits(s[i..d]);
      d
  }

  /** A run of digits from i to e extends at least to e. */
  lemma {:induction false} DigitRunEndAtLeast(s: string, i: nat, e: nat)
    requires i <= e <= |s|
    requires forall k :: i <= k < e ==> IsDigit(s[k])
    ensures DigitRunEnd(s, i) >= e
    decreases e - i
  {
    if i < e {
      DigitRunEndAtLeast(s, i + 1, e);
    }
  }

  /** A digit run followed by '.' and a digit continues into the fraction. */
  lemma DottedNumberEnd(s: string, i: nat)
    requires i < |s| && IsDigit(s[i])
    requires DigitRunEnd(s, i) + 1 < |s| && s[DigitRunEnd(s, i)] == '.' && IsDigit(s[DigitRunEnd(s, i) + 1])
    ensures NumberEnd(s, i) == DigitRunEnd(s, DigitRunEnd(s, i) + 1)
  {
  }

  /** The characters of a slice of digits are digits. */
  lemma DigitsOfSlice(s: string, a: nat, b: nat)
    requires a <= b <= |s| && AllDigits(s[a..b])
    ensures forall k :: a <= k < b ==> IsDigit(s[k])
  {
    forall k | a <= k < b ensures IsDigit(s[k]) {
      assert s[a..b][k - a] == s[k];
    }
  }

  /** Text at i with the number's shape ends no later than the greedy match. */
  lemma NumberShapeWithin(s: string, i: nat, e': nat)
    requires i < e' <= |s| && IsDigit(s[i]) && NumberShape(s[i..e'])
    ensures e' <= NumberEnd(s, i)
  {
    var t := s[i..e'];
    if |t| > 0 && AllDigits(t) {
      DigitsOfSlice(s, i, e');
      DigitRunEndAtLeast(s, i, e');
      NumberEndPastDigits(s, i);
    } else {
      var p :| 0 < p < |t| - 1 && t[p] == '.' && AllDigits(t[..p]) && AllDigits(t[p + 1..]);
      DottedWithin(s, i, e', p);
    }
  }

  /** The greedy match reaches at least the end of the run of digits. */
  lemma NumberEndPastDigits(s: string, i: nat)
    requires i < |s| && IsDigit(s[i])
    ensures DigitRunEnd(s, i) <= NumberEnd(s, i)
  {
  }

  /** A number-shaped text at i with its dot at i + p ends no later than
      the greedy match. */
  lemma DottedWithin(s: string, i: nat, e': nat, p: nat)
    requires i < e' <= |s| && IsDigit(s[i])
    requires 0 < p < e' - i - 1 && s[i + p] == '.'
    requires AllDigits(s[i..e'][..p]) && AllDigits(s[i..e'][p + 1..])
    ensures e' <= NumberEnd(s, i)
  {
    var t := s[i..e'];
    assert t[..p] == s[i..i + p] && t[p + 1..] == s[i + p + 1..e'];
    DigitsOfSlice(s, i, i + p);
    DigitsOfSlice(s, i + p + 1, e');
    DigitRunEndAt(s, i, i + p);
    DottedNumberEnd(s, i);
    DigitRunEndAtLeast(s, i + p + 1, e');
  }

  /** The greedy match is the longest text at i that has the number's shape. */
  lemma NumberEndIsLongest(s: string, i: nat, e': nat)
    requires i < |s| && IsDigit(s[i])
    requires NumberEnd(s, i) < e' <= |s|
    ensures !NumberShape(s[i..e'])
  {
    if NumberShape(s[i..e']) {
      NumberShapeWithin(s, i, e');
    }
  }

  /** A number whose next character is neither a digit nor '.' ends exactly
      where the greedy match ends. */
  lemma NumberEndUnique(s: string, i: nat, e: nat)
    requires i < e <= |s| && NumberShape(s[i..e])
    requires e == |s| || (!IsDigit(s[e]) && s[e] != '.')
    ensures IsDigit(s[i]) && NumberEnd(s, i) == e
  {
    var t := s[i..e];
    NumberShapeStartsWithDigit(t);
    assert s[i] == t[0];
    if |t| > 0 && AllDigits(t) {
      DigitsOfSlice(s, i, e);
      DigitRunEndAt(s, i, e);
    } else {
      var p :| 0 < p < |t| - 1 && t[p] == '.' && AllDigits(t[..p]) && AllDigits(t[p + 1..]);
      DottedEnd(s, i, e, p);
    }
  }

  /** A number-shaped text at i with its dot at i + p, followed by neither
      a digit nor '.', is the greedy match. */
  lemma DottedEnd(s: string, i: nat, e: nat, p: nat)
    requires i < e <= |s| && IsDigit(s[i])
    requires 0 < p < e - i - 1 && s[i + p] == '.'
    requires AllDigits(s[i..e][..p]) && AllDigits(s[i..e][p + 1..])
    requires e == |s| || !IsDigit(s[e])
    ensures NumberEnd(s, i) == e
  {
    var t := s[i..e];
    assert t[..p] == s[i..i + p] && t[p + 1..] == s[i + p + 1..e];
    DigitsOfSlice(s, i, i + p);
    DigitsOfSlice(s, i + p + 1, e);
    DigitRunEndAt(s, i, i + p);
    DottedNumberEnd(s, i);
    DigitRunEndAt(s, i + p + 1, e);
  }

  /** `decimal.Decimal(t)` for a number-shaped t, exactly. */
  function DecimalOf(t: string): (v: Rationals.Rat)
    requires NumberShape(t)
    ensures v.num >= 0
  {
    var d := DigitRunEnd(t, 0);
    if d == |t| then
      Rationals.FromDecimal(DigitsValue(t), 0)
    else
      var p :| 0 < p < |t| - 1 && t[p] == '.' && AllDigits(t[..p]) && AllDigits(t[p + 1..]);
      assert forall k :: 0 <= k < p ==> IsDigit(t[k]) by {
        forall k | 0 <= k < p ensures IsDigit(t[k]) {
          assert t[..p][k] == t[k];
        }
      }
      DigitRunEndAt(t, 0, p);
      Rationals.FromDecimal(DigitsValue(t[..d] + t[d + 1..]), |t| - d - 1)
  }

  // ---------------------------------------------------------------------
  // The two patterns, at one position and searched left to right
  // ---------------------------------------------------------------------

  predicate CodeAt(s: string, code: string, i: nat) {
    i + |code| <= |s| && s[i..i + |code|] == code
  }

  /** `(CODE)\s?(NUMBER)` or `(NUMBER)\s?(CODE)`. */
  datatype Form = CodeThenNumber | NumberThenCode

  /** The pattern of `form` matches at i, in the plain reading of the
      pattern: one optional whitespace character between code and number. */
  ghost predicate MatchesAt(s: string, code: string, form: Form, i: nat) {
    match form
    case CodeThenNumber => exists a: nat, e: nat :: CodeBeforeNumber(s, code, i, a, e)
    case NumberThenCode => exists e: nat :: NumberBeforeCode(s, code, i, e)
  }

  /** The code at i, then the number s[a..e], with at most one whitespace between. */
  predicate CodeBeforeNumber(s: string, code: string, i: nat, a: nat, e: nat) {
    CodeAt(s, code, i) && i + |code| <= a < e <= |s| && NumberShape(s[a..e])
    && (a == i + |code| || (a == i + |code| + 1 && IsSpace(s[i + |code|])))
  }

  /** The number s[i..e], then the code, with at most one whitespace between. */
  predicate NumberBeforeCode(s: string, code: string, i: nat, e: nat) {
    i < e <= |s| && NumberShape(s[i..e])
    && (CodeAt(s, code, e) || (e < |s| && IsSpace(s[e]) && CodeAt(s, code, e + 1)))
  }

  /** The regular-expression match attempt at i: the text of the number
      group, taken greedily. */
  function MatchAt(s: string, code: string, form: Form, i: nat): (r: Option<string>)
    requires i <= |s|
    ensures r.Some? ==> NumberShape(r.value)
  {
    match form
    case CodeThenNumber =>
      if CodeAt(s, code, i) then
        var p := i + |code|;
        if p + 1 < |s| && IsSpace(s[p]) && IsDigit(s[p + 1]) then Some(s[p + 1..NumberEnd(s, p + 1)])
        else if p < |s| && IsDigit(s[p]) then Some(s[p..NumberEnd(s, p)])
        else None
      else None
    case NumberThenCode =>
      if i < |s| && IsDigit(s[i]) then
        var e := NumberEnd(s, i);
        if (e < |s| && IsSpace(s[e]) && CodeAt(s, code, e + 1)) || CodeAt(s, code, e) then Some(s[i..e])
        else None
      else None
  }

  /** The match attempt succeeds exactly where the pattern matches. */
  lemma MatchAtComplete(s: string, code: string, form: Form, i: nat)
    requires i <= |s| && IsCode(code)
    ensures MatchAt(s, code, form, i).Some? <==> MatchesAt(s, code, form, i)
  {
    match form
    case CodeThenNumber => CodeThenNumberComplete(s, code, i);
    case NumberThenCode => NumberThenCodeComplete(s, code, i);
  }

  lemma CodeThenNumberComplete(s: string, code: string, i: nat)
    requires i <= |s| && IsCode(code)
    ensures MatchAt(s, code, CodeThenNumber, i).Some? <==> MatchesAt(s, code, CodeThenNumber, i)
  {
    var p := i + |code|;
    if MatchAt(s, code, CodeThenNumber, i).Some? {
      if p + 1 < |s| && IsSpace(s[p]) && IsDigit(s[p + 1]) {
        assert CodeBeforeNumber(s, code, i, p + 1, NumberEnd(s, p + 1));
      } else {
        assert CodeBeforeNumber(s, code, i, p, NumberEnd(s, p));
      }
    }
    if MatchesAt(s, code, CodeThenNumber, i) {
      var a: nat, e: nat :| CodeBeforeNumber(s, code, i, a, e);
      NumberShapeStartsWithDigit(s[a..e]);
      assert s[a..e][0] == s[a];
    }
  }

  lemma NumberThenCodeComplete(s: string, code: string, i: nat)
    requires i <= |s| && IsCode(code)
    ensures MatchAt(s, code, NumberThenCode, i).Some? <==> MatchesAt(s, code, NumberThenCode, i)
  {
    if MatchAt(s, code, NumberThenCode, i).Some? {
      assert NumberBeforeCode(s, code, i, NumberEnd(s, i));
    }
    NumberThenCodeFound(s, code, i);
  }

  lemma NumberThenCodeFound(s: string, code: string, i: nat)
    requires i <= |s| && IsCode(code)
    ensures MatchesAt(s, code, NumberThenCode, i) ==> MatchAt(s, code, NumberThenCode, i).Some?
  {
    if MatchesAt(s, code, NumberThenCode, i) {
      var e: nat :| NumberBeforeCode(s, code, i, e);
      if CodeAt(s, code, e) {
        assert s[e] == s[e..e + |code|][0] == code[0];
      } else {
        SpaceEndsNumber(s[e]);
      }
      NumberEndUnique(s, i, e);
    }
  }

  lemma SpaceEndsNumber(c: char)
    requires IsSpace(c)
    ensures !IsDigit(c) && c != '.'
  {
  }

  /** `re.search`: the leftmost position, from `from` on, where the match attempt succeeds. */
  function Search(s: string, code: string, form: Form, from: nat): (r: Option<(nat, string)>)
    requires from <= |s|
    ensures r.Some? ==> from <= r.value.0 <= |s| && MatchAt(s, code, form, r.value.0) == Some(r.value.1)
    ensures forall j :: from <= j <= |s| && (r.None? || j < r.value.0) ==> MatchAt(s, code, form, j).None?
    decreases |s| - from
  {
    match MatchAt(s, code, form, from)
    case Some(t) => Some((from, t))
    case None => if from == |s| then None else Search(s, code, form, from + 1)
  }

  /** The first currency, from index k of `Currencies` on, that `form` finds
      anywhere in s: its index and the number text of its leftmost match. */
  function FirstCurrency(s: string, form: Form, k: nat): (r: Option<(nat, string)>)
    requires k <= |Currencies|
    ensures r.Some? ==> (k <= r.value.0 < |Currencies|
      && Search(s, Currencies[r.value.0], form, 0).Some?
      && Search(s, Currencies[r.value.0], form, 0).value.1 == r.value.1)
    ensures forall m :: k <= m < |Currencies| && (r.None? || m < r.value.0) ==> Search(s, Currencies[m], form, 0).None?
    decreases |Currencies| - k
  {
    if k == |Currencies| then None
    else match Search(s, Currencies[k], form, 0)
      case Some((_, t)) => Some((k, t))
      case None => FirstCurrency(s, form, k + 1)
  }

  /** `extract_fiat_value`: the amount and the currency code, or (-1, "")
      when no code stands next to a number. */
  function ExtractFiatValue(s: string): (r: (Rationals.Rat, string))
    ensures r.1 == "" ==> r.0 == Rationals.FromInt(-1)
    ensures r.1 != "" ==> r.1 in Currencies && r.0.num >= 0
  {
    match FirstCurrency(s, CodeThenNumber, 0)
    case Some((k, t)) => (DecimalOf(t), Currencies[k])
    case None =>
      match FirstCurrency(s, NumberThenCode, 0)
      case Some((k, t)) => (DecimalOf(t), Currencies[k])
      case None => (Rationals.FromInt(-1), "")
  }

  ghost predicate FormMatchesSomewhere(s: string, form: Form) {
    exists k, i :: 0 <= k < |Currencies| && 0 <= i <= |s| && MatchesAt(s, Currencies[k], form, i)
  }

  /** A form that finds no currency at any position. */
  lemma NothingFound(s: string, form: Form)
    requires FirstCurrency(s, form, 0).None?
    ensures !FormMatchesSomewhere(s, form)
  {
    CurrenciesAreCodes();
    forall k, i | 0 <= k < |Currencies| && 0 <= i <= |s|
      ensures !MatchesAt(s, Currencies[k], form, i)
    {
      MatchAtComplete(s, Currencies[k], form, i);
    }
  }

  /** What `form` returns when it finds something: the first currency in the
      fixed order that matches anywhere, at its leftmost match. */
  ghost predicate WinsWith(s: string, form: Form, r: (Rationals.Rat, string)) {
    exists k, i :: 0 <= k < |Currencies| && 0 <= i <= |s| && MatchesAt(s, Currencies[k], form, i)
      && (forall m, j :: 0 <= m < k && 0 <= j <= |s| ==> !MatchesAt(s, Currencies[m], form, j))
      && (forall j :: 0 <= j < i ==> !MatchesAt(s, Currencies[k], form, j))
      && MatchAt(s, Currencies[k], form, i).Some?
      && r == (DecimalOf(MatchAt(s, Currencies[k], form, i).value), Currencies[k])
  }

  lemma FoundWins(s: string, form: Form, k: nat, t: string)
    requires FirstCurrency(s, form, 0) == Some((k, t))
    ensures WinsWith(s, form, (DecimalOf(t), Currencies[k]))
  {
    CurrenciesAreCodes();
    var i := Search(s, Currencies[k], form, 0).value.0;
    MatchAtComplete(s, Currencies[k], form, i);
    forall m, j | 0 <= m < k && 0 <= j <= |s|
      ensures !MatchesAt(s, Currencies[m], form, j)
    {
      MatchAtComplete(s, Currencies[m], form, j);
    }
    forall j | 0 <= j < i
      ensures !MatchesAt(s, Currencies[k], form, j)
    {
      MatchAtComplete(s, Currencies[k], form, j);
    }
  }

  /** The "CODE number" form is tried for every currency before the
      "number CODE" form, and within it the currencies go in their fixed
      order, not in the order they appear in the text. */
  lemma CodeFormWins(s: string)
    requires FormMatchesSomewhere(s, CodeThenNumber)
    ensures WinsWith(s, CodeThenNumber, ExtractFiatValue(s))
  {
    match FirstCurrency(s, CodeThenNumber, 0)
    case None =>
      NothingFound(s, CodeThenNumber);
      assert false;
    case Some((k, t)) =>
      FoundWins(s, CodeThenNumber, k, t);
  }

  /** Only when the first form finds nothing does the "number CODE" form decide. */
  lemma NumberFormSecond(s: string)
    requires !FormMatchesSomewhere(s, CodeThenNumber)
    requires FormMatchesSomewhere(s, NumberThenCode)
    ensures WinsWith(s, NumberThenCode, ExtractFiatValue(s))
  {
    match FirstCurrency(s, CodeThenNumber, 0)
    case Some((k, t)) =>
      FoundWins(s, CodeThenNumber, k, t);
      assert false;
    case None =>
      match FirstCurrency(s, NumberThenCode, 0)
      case None =>
        NothingFound(s, NumberThenCode);
        assert false;
      case Some((k, t)) =>
        FoundWins(s, NumberThenCode, k, t);
  }

  /** (-1, "") comes back exactly when no currency code stands next to a number. */
  lemma NoCurrencyIffMinusOne(s: string)
    ensures ExtractFiatValue(s).1 == ""
        <==> !FormMatchesSomewhere(s, CodeThenNumber) && !FormMatchesSomewhere(s, NumberThenCode)
  {
    match FirstCurrency(s, CodeThenNumber, 0)
    case Some((k, t)) =>
      FoundWins(s, CodeThenNumber, k, t);
    case None =>
      NothingFound(s, CodeThenNumber);
      match FirstCurrency(s, NumberThenCode, 0)
      case Some((k, t)) =>
        FoundWins(s, NumberThenCode, k, t);
      case None =>
        NothingFound(s, NumberThenCode);
  }

  /** At most one whitespace character may stand between code and number:
      with two, the pattern does not match there. */
  lemma OneSpaceAtMost(s: string, code: string, i: nat, e: nat)
    requires IsCode(code)
    ensures CodeAt(s, code, i) && i + |code| + 1 < |s| && IsSpace(s[i + |code|]) && IsSpace(s[i + |code| + 1])
      ==> !MatchesAt(s, code, CodeThenNumber, i)
    ensures e + 1 < |s| && IsSpace(s[e]) && IsSpace(s[e + 1]) ==> !NumberBeforeCode(s, code, i, e)
  {
    if CodeAt(s, code, i) && i + |code| + 1 < |s| && IsSpace(s[i + |code|]) && IsSpace(s[i + |code| + 1])
      && MatchesAt(s, code, CodeThenNumber, i)
    {
      var a: nat, e: nat :| CodeBeforeNumber(s, code, i, a, e);
      NumberShapeStartsWithDigit(s[a..e]);
      assert s[a..e][0] == s[a];
      SpaceEndsNumber(s[a]);
    }
  }

  /** "EUR 5, USD 7": USD is tried first, so the amount that comes later in
      the text is the one returned. */
  lemma CurrencyOrderExample()
    ensures ExtractFiatValue("EUR 5, USD 7") == (Rationals.FromInt(7), "USD")
  {
    var s := "EUR 5, USD 7";
    UsdSearchExample();
    assert FirstCurrency(s, CodeThenNumber, 0) == Some((0, "7"));
    SevenDecimal();
  }

  lemma UsdSearchExample()
    ensures Search("EUR 5, USD 7", "USD", CodeThenNumber, 0) == Some((7, "7"))
  {
    var s := "EUR 5, USD 7";
    assert Search(s, "USD", CodeThenNumber, 1) == Some((7, "7")) by {
      assert s[2] == 'R';
      SkipNoCode(s, "USD", 1, 1);
      UsdSearchFrom2();
    }
    assert s[0] == 'E';
    SkipNoCode(s, "USD", 0, 0);
  }

  lemma UsdSearchFrom2()
    ensures Search("EUR 5, USD 7", "USD", CodeThenNumber, 2) == Some((7, "7"))
  {
    var s := "EUR 5, USD 7";
    assert s[2] == 'R' && s[3] == ' ' && s[4] == '5';
    SkipNoCode(s, "USD", 4, 0);
    SkipNoCode(s, "USD", 3, 0);
    SkipNoCode(s, "USD", 2, 0);
    UsdSearchFrom5();
  }

  lemma UsdSearchFrom5()
    ensures Search("EUR 5, USD 7", "USD", CodeThenNumber, 5) == Some((7, "7"))
  {
    var s := "EUR 5, USD 7";
    assert s[5] == ',' && s[6] == ' ';
    SkipNoCode(s, "USD", 6, 0);
    SkipNoCode(s, "USD", 5, 0);
    UsdMatchAt7();
  }

  lemma UsdMatchAt7()
    ensures Search("EUR 5, USD 7", "USD", CodeThenNumber, 7) == Some((7, "7"))
  {
    var s := "EUR 5, USD 7";
    assert s[7..10] == "USD";
    assert s[10] == ' ' && s[11] == '7' && s[11..12] == "7";
    assert NumberEnd(s, 11) == 12;
    assert MatchAt(s, "USD", CodeThenNumber, 7) == Some("7");
  }

  /** A search for a code goes past an index where the code's k-th
      character is not there. */
  lemma SkipNoCode(s: string, code: string, i: nat, k: nat)
    requires i < |s| && k < |code| && (i + k >= |s| || s[i + k] != code[k])
    ensures Search(s, code, CodeThenNumber, i) == Search(s, code, CodeThenNumber, i + 1)
  {
    if i + |code| <= |s| {
      assert s[i..i + |code|][k] == s[i + k];
    }
  }

  lemma UsdAbsentExample()
    ensures Search("5 USD EUR 7", "USD", CodeThenNumber, 0) == None
  {
    var s := "5 USD EUR 7";
    assert s[2..5] == "USD" && s[5] == ' ' && s[6] == 'E';
    assert MatchAt(s, "USD", CodeThenNumber, 11).None?;
    assert Search(s, "USD", CodeThenNumber, 11) == None;
    assert MatchAt(s, "USD", CodeThenNumber, 10).None?;
    assert Search(s, "USD", CodeThenNumber, 10) == None;
    assert MatchAt(s, "USD", CodeThenNumber, 9).None?;
    assert Search(s, "USD", CodeThenNumber, 9) == None;
    assert s[8..11][0] != "USD"[0];
    assert MatchAt(s, "USD", CodeThenNumber, 8).None?;
    assert Search(s, "USD", CodeThenNumber, 8) == None;
    assert s[7..10][1] != "USD"[1];
    assert MatchAt(s, "USD", CodeThenNumber, 7).None?;
    assert Search(s, "USD", CodeThenNumber, 7) == None;
    assert s[6..9][0] != "USD"[0];
    assert MatchAt(s, "USD", CodeThenNumber, 6).None?;
    assert Search(s, "USD", CodeThenNumber, 6) == None;
    assert s[5..8][0] != "USD"[0];
    assert MatchAt(s, "USD", CodeThenNumber, 5).None?;
    assert Search(s, "USD", CodeThenNumber, 5) == None;
    assert s[4..7][0] != "USD"[0];
    assert MatchAt(s, "USD", CodeThenNumber, 4).None?;
    assert Search(s, "USD", CodeThenNumber, 4) == None;
    assert s[3..6][0] != "USD"[0];
    assert MatchAt(s, "USD", CodeThenNumber, 3).None?;
    assert Search(s, "USD", CodeThenNumber, 3) == None;
    assert MatchAt(s, "USD", CodeThenNumber, 2).None?;
    assert Search(s, "USD", CodeThenNumber, 2) == None;
    assert s[1..4][0] != "USD"[0];
    assert MatchAt(s, "USD", CodeThenNumber, 1).None?;
    assert Search(s, "USD", CodeThenNumber, 1) == None;
    assert s[0..3][0] != "USD"[0];
    assert MatchAt(s, "USD", CodeThenNumber, 0).None?;
    assert Search(s, "USD", CodeThenNumber, 0) == None;
  }

  lemma EurFoundExample()
    ensures Search("5 USD EUR 7", "EUR", CodeThenNumber, 0) == Some((6, "7"))
  {
    var s := "5 USD EUR 7";
    assert s[6..9] == "EUR";
    assert s[9] == ' ' && s[10] == '7' && s[10..11] == "7";
    assert NumberEnd(s, 10) == 11;
    assert MatchAt(s, "EUR", CodeThenNumber, 6) == Some("7");
    assert Search(s, "EUR", CodeThenNumber, 6) == Some((6, "7"));
    assert s[5..8][0] != "EUR"[0];
    assert MatchAt(s, "EUR", CodeThenNumber, 5).None?;
    assert Search(s, "EUR", CodeThenNumber, 5) == Some((6, "7"));
    assert s[4..7][0] != "EUR"[0];
    assert MatchAt(s, "EUR", CodeThenNumber, 4).None?;
    assert Search(s, "EUR", CodeThenNumber, 4) == Some((6, "7"));
    assert s[3..6][0] != "EUR"[0];
    assert MatchAt(s, "EUR", CodeThenNumber, 3).None?;
    assert Search(s, "EUR", CodeThenNumber, 3) == Some((6, "7"));
    assert s[2..5][0] != "EUR"[0];
    assert MatchAt(s, "EUR", CodeThenNumber, 2).None?;
    assert Search(s, "EUR", CodeThenNumber, 2) == Some((6, "7"));
    assert s[1..4][0] != "EUR"[0];
    assert MatchAt(s, "EUR", CodeThenNumber, 1).None?;
    assert Search(s, "EUR", CodeThenNumber, 1) == Some((6, "7"));
    assert s[0..3][0] != "EUR"[0];
    assert MatchAt(s, "EUR", CodeThenNumber, 0).None?;
    assert Search(s, "EUR", CodeThenNumber, 0) == Some((6, "7"));
  }

  /** "5 USD EUR 7": the "CODE number" form finds EUR 7 before the
      "number CODE" form would have found 5 USD. */
  lemma FormOrderExample()
    ensures ExtractFiatValue("5 USD EUR 7") == (Rationals.FromInt(7), "EUR")
  {
    EurFirstCurrency();
    SevenDecimal();
  }

  lemma EurFirstCurrency()
    ensures FirstCurrency("5 USD EUR 7", CodeThenNumber, 0) == Some((1, "7"))
  {
    var s := "5 USD EUR 7";
    UsdAbsentExample();
    EurFoundExample();
    assert Currencies[0] == "USD" && Currencies[1] == "EUR";
    assert FirstCurrency(s, CodeThenNumber, 1) == Some((1, "7"));
  }

  lemma SevenDecimal()
    ensures DecimalOf("7") == Rationals.FromInt(7)
  {
    assert DigitRunEnd("7", 0) == 1;
  }

  // ---------------------------------------------------------------------
  // Hashtag badges
  // ---------------------------------------------------------------------

  /** The link that replaces the hashtag with word `tag`. */
  function Badge(tag: string): string {
    "<a href=\"?tag=" + tag + "\" class=\"badge badge-hashtag\">" + tag + "</a>"
  }

  /** The text after replacing, one after the other, every occurrence of each
      hashtag in `tags` by its badge. */
  function BadgeAll(value: string, tags: seq<string>): string
    requires forall t :: t in tags ==> IsHashtag(t)
    decreases |tags|
  {
    if tags == [] then value
    else
      assert tags[0] in tags && IsHashtag(tags[0]);
      BadgeAll(ReplaceAll(value, tags[0], Badge(tags[0][1..])), tags[1..])
  }

  /** `hashtag_to_badge`, as written: a `str.replace` per hashtag found. */
  method HashtagToBadge(value: string) returns (r: string)
    ensures r == BadgeAll(value, FindHashtags(value))
    ensures (forall k :: 0 <= k < |value| ==> value[k] != '#') ==> r == value
  {
    var hashtags := FindHashtags(value);
    r := value;
    var k := 0;
    while k < |hashtags|
      invariant 0 <= k <= |hashtags|
      invariant BadgeAll(r, hashtags[k..]) == BadgeAll(value, hashtags)
    {
      var tag := hashtags[k];
      assert tag in hashtags;
      var cleanTag := tag[1..];
      assert hashtags[k..][1..] == hashtags[k + 1..];
      r := ReplaceAll(r, tag, Badge(cleanTag));
      k := k + 1;
    }
  }

  lemma PrefixTagsFound()
    ensures FindHashtags("#a #ab") == ["#a", "#ab"]
  {
    var s := "#a #ab";
    assert WordRunEnd(s, 1) == 2;
    assert WordRunEnd(s, 4) == 6;
    assert FindHashtags(s, 6) == [];
    assert s[2] == ' ' && s[3] == '#' && s[4] == 'a' && s[3..6] == "#ab" && s[0..2] == "#a";
    assert FindHashtags(s, 3) == ["#ab"];
    assert FindHashtags(s, 2) == ["#ab"];
  }

  lemma PrefixTagReplaced()
    ensures ReplaceAll("#a #ab", "#a", Badge("a")) == Badge("a") + " " + Badge("a") + "b"
  {
    assert ReplaceAll("b", "#a", Badge("a")) == "b";
    assert ReplaceAll("#ab", "#a", Badge("a")) == Badge("a") + "b";
    assert ReplaceAll(" #ab", "#a", Badge("a")) == " " + Badge("a") + "b";
  }

  lemma BadgeHasNoHash(w: string)
    requires forall k :: 0 <= k < |w| ==> w[k] != '#'
    ensures forall k :: 0 <= k < |Badge(w)| ==> Badge(w)[k] != '#'
  {
    var p1 := "<a href=\"?tag=";
    var p2 := "\" class=\"badge badge-hashtag\">";
    var p3 := "</a>";
    assert Badge(w) == p1 + w + p2 + w + p3;
    assert forall k :: 0 <= k < |p1| ==> p1[k] != '#';
    assert forall k :: 0 <= k < |p2| ==> p2[k] != '#';
    assert forall k :: 0 <= k < |p3| ==> p3[k] != '#';
  }

  /** "#a #ab": replacing every "#a" also rewrites the start of "#ab", so
      the second hashtag loses its own badge. */
  lemma PrefixTagMangledExample()
    ensures BadgeAll("#a #ab", FindHashtags("#a #ab")) == Badge("a") + " " + Badge("a") + "b"
    ensures BadgeAll("#a #ab", FindHashtags("#a #ab")) != BadgeEach("#a #ab")
  {
    var once := Badge("a") + " " + Badge("a") + "b";
    PrefixTagsFound();
    PrefixTagReplaced();
    BadgeHasNoHash("a");
    assert forall k :: 0 <= k < |once| ==> once[k] != '#';
    NoHashNotContained(once, "#ab");
    assert BadgeAll(once, ["#ab"]) == once;
    assert ["#a", "#ab"][1..] == ["#ab"];
    BadgeEachExample();
    assert |once| != |Badge("a") + " " + Badge("ab")|;
  }

  // The corrected conversion: one left-to-right pass in which each hashtag
  // is replaced by the badge of its own whole word.

  /** A piece of label text: a character kept as it is, or a hashtag's word. */
  datatype Piece = Plain(c: char) | Tag(word: string)

  /** s[i..] cut into pieces at the hashtags that `#\w+` finds. */
  function Pieces(s: string, i: nat): seq<Piece>
    requires i <= |s|
    decreases |s| - i
  {
    if i >= |s| then []
    else if s[i] == '#' && i + 1 < |s| && IsWordChar(s[i + 1]) then
      var e := WordRunEnd(s, i + 1);
      [Tag(s[i + 1..e])] + Pieces(s, e)
    else [Plain(s[i])] + Pieces(s, i + 1)
  }

  /** The text the pieces were cut from. */
  function SourceText(ps: seq<Piece>): string {
    if ps == [] then ""
    else (match ps[0] case Plain(c) => [c] case Tag(w) => "#" + w) + SourceText(ps[1..])
  }

  /** The pieces with every hashtag shown as its badge. */
  function Rendered(ps: seq<Piece>): string {
    if ps == [] then ""
    else (match ps[0] case Plain(c) => [c] case Tag(w) => Badge(w)) + Rendered(ps[1..])
  }

  function TagsOf(ps: seq<Piece>): seq<string> {
    if ps == [] then []
    else (match ps[0] case Plain(_) => [] case Tag(w) => ["#" + w]) + TagsOf(ps[1..])
  }

  /** Each hashtag, and nothing else, replaced by the badge of its own word. */
  function BadgeEach(s: string): string {
    Rendered(Pieces(s, 0))
  }

  /** The pieces give back the text they were cut from. */
  lemma {:induction false} PiecesSource(s: string, i: nat)
    requires i <= |s|
    ensures SourceText(Pieces(s, i)) == s[i..]
    decreases |s| - i
  {
    if i < |s| {
      if s[i] == '#' && i + 1 < |s| && IsWordChar(s[i + 1]) {
        PiecesSource(s, WordRunEnd(s, i + 1));
        SourceTagStep(s, i);
      } else {
        PiecesSource(s, i + 1);
        SourcePlainStep(s, i);
      }
    }
  }

  lemma SourceTagStep(s: string, i: nat)
    requires i + 1 < |s| && s[i] == '#' && IsWordChar(s[i + 1])
    requires SourceText(Pieces(s, WordRunEnd(s, i + 1))) == s[WordRunEnd(s, i + 1)..]
    ensures SourceText(Pieces(s, i)) == s[i..]
  {
    var e := WordRunEnd(s, i + 1);
    assert Pieces(s, i) == [Tag(s[i + 1..e])] + Pieces(s, e);
    ConsPiece(Tag(s[i + 1..e]), Pieces(s, e));
    assert "#" + s[i + 1..e] == s[i..e];
    assert s[i..] == s[i..e] + s[e..];
  }

  lemma SourcePlainStep(s: string, i: nat)
    requires i < |s| && !(s[i] == '#' && i + 1 < |s| && IsWordChar(s[i + 1]))
    requires SourceText(Pieces(s, i + 1)) == s[i + 1..]
    ensures SourceText(Pieces(s, i)) == s[i..]
  {
    assert Pieces(s, i) == [Plain(s[i])] + Pieces(s, i + 1);
    ConsPiece(Plain(s[i]), Pieces(s, i + 1));
    assert s[i..] == [s[i]] + s[i + 1..];
  }

  /** The hashtags of the pieces are exactly the ones `#\w+` finds, in
      order. */
  lemma {:induction false} PiecesTags(s: string, i: nat)
    requires i <= |s|
    ensures TagsOf(Pieces(s, i)) == FindHashtags(s, i)
    decreases |s| - i
  {
    if i < |s| {
      if s[i] == '#' && i + 1 < |s| && IsWordChar(s[i + 1]) {
        PiecesTags(s, WordRunEnd(s, i + 1));
        TagsTagStep(s, i);
      } else {
        PiecesTags(s, i + 1);
        TagsPlainStep(s, i);
      }
    }
  }

  lemma TagsTagStep(s: string, i: nat)
    requires i + 1 < |s| && s[i] == '#' && IsWordChar(s[i + 1])
    requires TagsOf(Pieces(s, WordRunEnd(s, i + 1))) == FindHashtags(s, WordRunEnd(s, i + 1))
    ensures TagsOf(Pieces(s, i)) == FindHashtags(s, i)
  {
    var e := WordRunEnd(s, i + 1);
    assert Pieces(s, i) == [Tag(s[i + 1..e])] + Pieces(s, e);
    ConsPiece(Tag(s[i + 1..e]), Pieces(s, e));
    assert "#" + s[i + 1..e] == s[i..e];
  }

  lemma TagsPlainStep(s: string, i: nat)
    requires i < |s| && !(s[i] == '#' && i + 1 < |s| && IsWordChar(s[i + 1]))
    requires TagsOf(Pieces(s, i + 1)) == FindHashtags(s, i + 1)
    ensures TagsOf(Pieces(s, i)) == FindHashtags(s, i)
  {
    assert Pieces(s, i) == [Plain(s[i])] + Pieces(s, i + 1);
    ConsPiece(Plain(s[i]), Pieces(s, i + 1));
  }

  /** The text and the hashtags of one piece followed by others. */
  lemma ConsPiece(p: Piece, ps: seq<Piece>)
    ensures SourceText([p] + ps) == (match p case Plain(c) => [c] case Tag(w) => "#" + w) + SourceText(ps)
    ensures TagsOf([p] + ps) == (match p case Plain(_) => [] case Tag(w) => ["#" + w]) + TagsOf(ps)
  {
    assert ([p] + ps)[1..] == ps;
  }

  /** The corrected conversion: the text cuts into pieces whose hashtags are
      exactly the ones `#\w+` finds, every hashtag becomes the badge of its own
      word, and all other text is kept. */
  lemma BadgeEachSpec(s: string)
    ensures exists ps :: SourceText(ps) == s && TagsOf(ps) == FindHashtags(s) && BadgeEach(s) == Rendered(ps)
  {
    PiecesSource(s, 0);
    PiecesTags(s, 0);
    assert SourceText(Pieces(s, 0)) == s;
  }

  lemma {:induction false} NoHashAllPlain(s: string, i: nat)
    requires i <= |s|
    requires forall k :: 0 <= k < |s| ==> s[k] != '#'
    ensures Rendered(Pieces(s, i)) == s[i..]
    decreases |s| - i
  {
    if i < |s| {
      NoHashAllPlain(s, i + 1);
      assert s[i..] == [s[i]] + s[i + 1..];
    }
  }

  /** Text without '#' is returned unchanged. */
  lemma BadgeEachNoHash(s: string)
    requires forall k :: 0 <= k < |s| ==> s[k] != '#'
    ensures BadgeEach(s) == s
  {
    NoHashAllPlain(s, 0);
  }

  lemma BadgeEachExample()
    ensures BadgeEach("#a #ab") == Badge("a") + " " + Badge("ab")
  {
    var s := "#a #ab";
    assert WordRunEnd(s, 1) == 2;
    assert WordRunEnd(s, 4) == 6;
    assert s[1..2] == "a" && s[4..6] == "ab";
    assert Pieces(s, 2) == [Plain(' '), Tag("ab")];
  }
}
