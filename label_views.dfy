/** The record logic of the labelbase views: the search and paging of the
    derived-address table, the currency-sync categories of the output and
    input labels, and the missing-data report and the fill from OutputStat
    rows. Template rendering, redirects and messages are left out. */
module LabelViews {
  import opened Wrappers
  import opened Text
  import R = Rationals
  import LabelUtils
  import LabelSerializer
  import FinanceModels

  // ---------------------------------------------------------------------
  // The address table: search and paging
  // ---------------------------------------------------------------------

  /** One derived address of the table. */
  datatype AddressRow = AddressRow(index: nat, path: string, address: string)

  /** The row matches the (lower-cased) query. */
  predicate RowMatches(row: AddressRow, query: string) {
    Contains(Lower(row.address), query)
  }

  /** The rows that match the query, in their order. */
  function Matching(rows: seq<AddressRow>, query: string): (r: seq<AddressRow>)
    ensures |r| <= |rows|
  {
    if rows == [] then []
    else
      var init := Matching(rows[..|rows| - 1], query);
      if RowMatches(rows[|rows| - 1], query) then init + [rows[|rows| - 1]] else init
  }

  /** `filter_queryset`: with a search text, the rows whose address contains
      it, both lower-cased; with none or an empty one, every row. */
  method FilterQueryset(rows: seq<AddressRow>, search: Option<string>) returns (r: seq<AddressRow>)
    ensures var query := Lower(search.GetOr(""));
      r == if query == "" then rows else Matching(rows, query)
  {
    var query := Lower(search.GetOr(""));
    if query == "" {
      return rows;
    }
    r := [];
    var i := 0;
    while i < |rows|
      invariant 0 <= i <= |rows|
      invariant r == Matching(rows[..i], query)
    {
      assert rows[..i + 1][..i] == rows[..i];
      if Contains(Lower(rows[i].address), query) {
        r := r + [rows[i]];
      }
      i := i + 1;
    }
    assert rows[..i] == rows;
  }

  /** A row is kept exactly when it is one of the rows and matches. */
  lemma {:induction false} MatchingMembers(rows: seq<AddressRow>, query: string)
    ensures forall x :: x in Matching(rows, query) <==> x in rows && RowMatches(x, query)
  {
    if rows != [] {
      var init := rows[..|rows| - 1];
      MatchingMembers(init, query);
      assert forall x :: x in rows <==> x in init || x == rows[|rows| - 1];
    }
  }

  /** Searching the result again with the same query changes nothing. */
  lemma {:induction false} MatchingIdempotent(rows: seq<AddressRow>, query: string)
    ensures Matching(Matching(rows, query), query) == Matching(rows, query)
  {
    if rows != [] {
      var init := rows[..|rows| - 1];
      MatchingIdempotent(init, query);
      var m := Matching(init, query);
      if RowMatches(rows[|rows| - 1], query) {
        assert (m + [rows[|rows| - 1]])[..|m|] == m;
      }
    }
  }

  /** A bound of a Python slice: a negative index counts from the end, and
      the result is clamped to the sequence. */
  function SliceIndex(i: int, n: nat): (j: nat)
    ensures j <= n
    ensures i >= 0 ==> j == if i < n then i else n
    ensures i < 0 ==> j == if i + n > 0 then i + n else 0
  {
    if i < 0 then (if i + n > 0 then i + n else 0) else if i < n then i else n
  }

  /** `s[a:b]` in Python. */
  function PySlice<T>(s: seq<T>, a: int, b: int): (r: seq<T>)
    ensures |r| <= |s|
  {
    var lo := SliceIndex(a, |s|);
    var hi := SliceIndex(b, |s|);
    if lo < hi then s[lo..hi] else []
  }

  /** `paging`: `int()` of the `start` (default 0) and `length` (default 10)
      parameters, then `qs[start:start + length]`; None where `int()` raises. */
  function Paging(rows: seq<AddressRow>, start: Option<string>, length: Option<string>): Option<seq<AddressRow>> {
    PageOf(rows, if start.Some? then ParsePyInt(start.value) else Some(0),
      if length.Some? then ParsePyInt(length.value) else Some(10))
  }

  /** The slice for the parsed parameters; None when one did not parse. */
  function PageOf(rows: seq<AddressRow>, start: Option<int>, length: Option<int>): Option<seq<AddressRow>> {
    if start.None? || length.None? then None
    else Some(PySlice(rows, start.value, start.value + length.value))
  }

  /** The parameters are the decimal texts of the integers: the page is
      the slice from `start` to `start + length`. */
  lemma PagingOfNumbers(rows: seq<AddressRow>, start: int, length: int)
    ensures Paging(rows, Some(IntToString(start)), Some(IntToString(length)))
      == Some(PySlice(rows, start, start + length))
  {
    IntToStringRoundTrip(start);
    IntToStringRoundTrip(length);
    assert Paging(rows, Some(IntToString(start)), Some(IntToString(length)))
      == PageOf(rows, ParsePyInt(IntToString(start)), ParsePyInt(IntToString(length)));
    PageOfNumbers(rows, start, length);
  }

  lemma PageOfNumbers(rows: seq<AddressRow>, start: int, length: int)
    ensures PageOf(rows, Some(start), Some(length)) == Some(PySlice(rows, start, start + length))
  {
  }

  /** Without parameters the page is the first ten rows. */
  lemma DefaultPage(rows: seq<AddressRow>)
    ensures Paging(rows, None, None) == Some(rows[..if |rows| < 10 then |rows| else 10])
  {
  }

  /** With a non-negative start and length the page is the window of at most
      `length` rows from `start`, empty past the end. */
  lemma PageWindow(rows: seq<AddressRow>, start: int, length: int)
    requires start >= 0 && length >= 0
    ensures var page := PySlice(rows, start, start + length);
      |page| <= length
      && (start < |rows| ==> page == rows[start..if start + length < |rows| then start + length else |rows|])
      && (start >= |rows| ==> page == [])
  {
  }

  /** Two consecutive pages of one length cover the rows of one page twice
      as long. */
  lemma ConsecutivePages(rows: seq<AddressRow>, start: nat, length: nat)
    ensures PySlice(rows, start, start + length) + PySlice(rows, start + length, start + 2 * length)
      == PySlice(rows, start, start + 2 * length)
  {
    var n := |rows|;
    var a, b, c := SliceIndex(start, n), SliceIndex(start + length, n), SliceIndex(start + 2 * length, n);
    if a < b && b < c {
      assert rows[a..b] + rows[b..c] == rows[a..c];
    }
  }

  /** A negative start counts from the end of the rows while the end of the
      window, `start + length`, counts from the front: a start of -1 with a
      length of 10 gives no rows from a list of ten or more. */
  lemma NegativeStartWindow(rows: seq<AddressRow>, start: int, length: int)
    requires start < 0 && 0 <= start + length && length <= |rows|
    ensures PySlice(rows, start, start + length) == []
  {
  }

  // ---------------------------------------------------------------------
  // Currency sync
  // ---------------------------------------------------------------------

  /** A Python `Decimal`: a finite value, an infinity, or a NaN. */
  datatype Dec = Finite(v: R.Rat) | Infinite | NotANumber

  /** The first index of c in s, or |s|. */
  function IndexOf(s: string, c: char): (i: nat)
    ensures i <= |s| && (i < |s| ==> s[i] == c)
    ensures forall k :: 0 <= k < i ==> s[k] != c
  {
    if s == [] then 0 else if s[0] == c then 0 else 1 + IndexOf(s[1..], c)
  }

  /** The first index of 'e' or 'E' in s, or |s|. */
  function ExponentMark(s: string): (i: nat)
    ensures i <= |s| && (i < |s| ==> LowerChar(s[i]) == 'e')
    ensures forall k :: 0 <= k < i ==> LowerChar(s[k]) != 'e'
  {
    if s == [] then 0 else if LowerChar(s[0]) == 'e' then 0 else 1 + ExponentMark(s[1..])
  }

  /** The digits of a mantissa with at most one '.', and at least one digit:
      the digits without the dot and the number after the dot. */
  function Mantissa(m: string): (r: Option<(nat, nat)>)
    ensures r.Some? ==> r.value.1 < |m|
  {
    var d := IndexOf(m, '.');
    if d == |m| then (if |m| > 0 && AllDigits(m) then Some((DigitsValue(m), 0)) else None)
    else
      var a, b := m[..d], m[d + 1..];
      if |a| + |b| > 0 && AllDigits(a) && AllDigits(b) then
        assert AllDigits(a + b);
        Some((DigitsValue(a + b), |b|))
      else None
  }

  /** An exponent: an optional sign and at least one digit. */
  function Exponent(e: string): Option<int> {
    var signed := |e| > 0 && (e[0] == '-' || e[0] == '+');
    var body := if signed then e[1..] else e;
    if |body| > 0 && AllDigits(body) then
      Some(if signed && e[0] == '-' then -(DigitsValue(body) as int) else DigitsValue(body))
    else None
  }

  /** `unscaled * 10^(exp - scale)` as a rational. */
  function Scaled(unscaled: int, scale: nat, exp: int): R.Rat {
    if exp >= scale then R.FromInt(unscaled * R.Pow10(exp - scale))
    else R.FromDecimal(unscaled, scale - exp)
  }

  /** A finite decimal without its sign: a mantissa and an optional exponent
      after 'e' or 'E'. */
  function Unsigned(t: string): Option<R.Rat> {
    var e := ExponentMark(t);
    var m := Mantissa(t[..e]);
    var x := if e == |t| then Some(0) else Exponent(t[e + 1..]);
    if m.None? || x.None? then None
    else Some(Scaled(m.value.0, m.value.1, x.value))
  }

  /** The names of the special values, lower-cased. */
  predicate IsInfinityName(t: string) {
    (|t| == 3 || |t| == 8) && forall k :: 0 <= k < |t| ==> LowerChar(t[k]) == "infinity"[k]
  }

  /** "nan" or "snan" in any case, followed by digits (the diagnostic). */
  predicate IsNaNName(t: string) {
    var q := if |t| > 0 && LowerChar(t[0]) == 's' then 1 else 0;
    |t| >= q + 3 && LowerChar(t[q]) == 'n' && LowerChar(t[q + 1]) == 'a' && LowerChar(t[q + 2]) == 'n'
    && AllDigits(t[q + 3..])
  }

  /** `Decimal(s)` on text: surrounding whitespace, an optional sign, then a
      finite number, an infinity or a NaN; None where Python raises
      InvalidOperation. */
  function DecimalText(s: string): Option<Dec> {
    SignedDecimal(Strip(s))
  }

  /** A decimal without surrounding whitespace: an optional sign and a body. */
  function SignedDecimal(t: string): Option<Dec> {
    if |t| > 0 && (t[0] == '-' || t[0] == '+') then
      match BodyDecimal(t[1..])
      case Some(Finite(v)) => Some(Finite(if t[0] == '-' then R.Neg(v) else v))
      case d => d
    else BodyDecimal(t)
  }

  /** The body of a decimal: an infinity, a NaN, or a finite number. */
  function BodyDecimal(body: string): Option<Dec> {
    if IsInfinityName(body) then Some(Infinite)
    else if IsNaNName(body) then Some(NotANumber)
    else match Unsigned(body)
      case None => None
      case Some(v) => Some(Finite(v))
  }

  /** `Decimal(str(n))`: the text of an integer is that integer. */
  lemma DecimalOfInt(n: int)
    ensures DecimalText(IntToString(n)) == Some(Finite(R.FromInt(n)))
  {
    var s := IntToString(n);
    var d := if n < 0 then -n else n;
    var digits := NatToString(d);
    assert s == if n < 0 then "-" + digits else digits;
    StripOfNumber(s);
    NatToStringValue(d);
    DigitsDecimal(digits);
    if n < 0 {
      assert s[1..] == digits;
      NegativeDecimal(s, digits);
    }
  }

  /** A minus sign negates a digit body. */
  lemma NegativeDecimal(t: string, digits: string)
    requires |t| > 0 && t[0] == '-' && t[1..] == digits && AllDigits(digits)
    requires BodyDecimal(digits) == Some(Finite(R.FromInt(DigitsValue(digits))))
    ensures SignedDecimal(t) == Some(Finite(R.FromInt(-(DigitsValue(digits) as int))))
  {
    assert BodyDecimal(t[1..]) == Some(Finite(R.FromInt(DigitsValue(digits))));
    assert R.Neg(R.FromInt(DigitsValue(digits))) == R.FromInt(-(DigitsValue(digits) as int));
  }

  /** Digits are a finite body whose value is theirs. */
  lemma DigitsDecimal(digits: string)
    requires |digits| > 0 && AllDigits(digits)
    ensures BodyDecimal(digits) == Some(Finite(R.FromInt(DigitsValue(digits))))
    ensures SignedDecimal(digits) == BodyDecimal(digits)
  {
    assert IsDigit(digits[0]);
    DigitsNoE(digits);
  }

  /** Digits have no exponent and are their own mantissa. */
  lemma DigitsNoE(digits: string)
    requires |digits| > 0 && AllDigits(digits)
    ensures Unsigned(digits) == Some(R.FromInt(DigitsValue(digits)))
  {
    assert ExponentMark(digits) == |digits|;
    assert IndexOf(digits, '.') == |digits|;
    assert digits[..|digits|] == digits;
  }

  /** `abs(fmv_value - value) < Decimal('0.01')`; None where the comparison
      raises, which it does for a NaN. */
  function Close(fmv: Dec, value: R.Rat): (r: Option<bool>)
    ensures fmv.Finite? ==> r == Some(R.Lt(R.Abs(R.Sub(fmv.v, value)), R.FromDecimal(1, 2)))
    ensures fmv.Infinite? ==> r == Some(false)
    ensures fmv.NotANumber? ==> r.None?
  {
    match fmv
    case Finite(v) => Some(R.Lt(R.Abs(R.Sub(v, value)), R.FromDecimal(1, 2)))
    case Infinite => Some(false)
    case NotANumber => None
  }

  /** `fmv_data[currency]` of a parsed fmv document: the last value of the key
      in an object (the one `json.loads` keeps). */
  function Lookup(members: seq<(string, LabelSerializer.Json)>, key: string): (r: Option<LabelSerializer.Json>)
    ensures r.Some? <==> exists k :: 0 <= k < |members| && members[k].0 == key
    ensures r.Some? ==> exists k :: (0 <= k < |members| && members[k] == (key, r.value)
      && forall j :: k < j < |members| ==> members[j].0 != key)
  {
    if members == [] then None
    else if members[|members| - 1].0 == key then Some(members[|members| - 1].1)
    else
      var init := members[..|members| - 1];
      var r := Lookup(init, key);
      assert forall k :: 0 <= k < |init| ==> init[k] == members[k];
      assert r.Some? ==> exists k :: (0 <= k < |init| && init[k] == (key, r.value)
        && forall j :: k < j < |init| ==> init[j].0 != key);
      r
  }

  /** `currency in fmv_data` followed by `fmv_data[currency]`, for a document
      that is not an object: False when the key is absent; None where Python
      raises (`in` on a number or a boolean, or indexing a list or a string). */
  function NotObjectLookup(fmv: LabelSerializer.Json, currency: string): (r: Option<bool>)
    requires !fmv.JObject?
    ensures r == Some(true) ==> false
  {
    match fmv
    case JStr(str) => if Contains(str, currency) then None else Some(false)
    case JArray(items) => if LabelSerializer.JStr(currency) in items then None else Some(false)
    case _ => None
  }

  /** `Decimal(fmv_value)` for a value of the document that is not a string:
      `Decimal(str(v))`, which only an integer survives. */
  function NonStringDecimal(v: LabelSerializer.Json): (d: Option<Dec>)
    requires !v.JStr?
    ensures d.Some? <==> v.JInt?
    ensures v.JInt? ==> d == Some(Finite(R.FromInt(v.n)))
  {
    match v
    case JInt(n) => Some(Finite(R.FromInt(n)))
    case _ => None
  }

  /** `_currencies_match` as written: a string value that `Decimal` rejects
      raises InvalidOperation, which is neither of the two exceptions the
      handler catches, so the view fails. None stands for the exception. */
  function CurrenciesMatchAsWritten(value: R.Rat, currency: string, fmv: LabelSerializer.Json): Option<bool> {
    if !fmv.JObject? then NotObjectLookup(fmv, currency)
    else match Lookup(fmv.members, currency)
      case None => Some(false)
      case Some(v) =>
        if v.JStr? then
          match DecimalText(v.str)
          case None => None
          case Some(d) => Close(d, value)
        else match NonStringDecimal(v)
          case None => None
          case Some(d) => Close(d, value)
  }

  /** `_currencies_match` with the handler it evidently means: a string value
      that is not a number makes the label a conflict, not an error. */
  function CurrenciesMatch(value: R.Rat, currency: string, fmv: LabelSerializer.Json): Option<bool> {
    if !fmv.JObject? then NotObjectLookup(fmv, currency)
    else match Lookup(fmv.members, currency)
      case None => Some(false)
      case Some(v) =>
        if v.JStr? then
          match DecimalText(v.str)
          case None => Some(false)
          case Some(d) => Close(d, value)
        else match NonStringDecimal(v)
          case None => None
          case Some(d) => Close(d, value)
  }

  /** The two agree except where the written code raises on text that is not
      a number; there the corrected one answers False. */
  lemma MatchCorrection(value: R.Rat, currency: string, fmv: LabelSerializer.Json)
    ensures CurrenciesMatchAsWritten(value, currency, fmv).Some? ==>
      CurrenciesMatch(value, currency, fmv) == CurrenciesMatchAsWritten(value, currency, fmv)
    ensures CurrenciesMatchAsWritten(value, currency, fmv).None? && CurrenciesMatch(value, currency, fmv).Some? ==>
      CurrenciesMatch(value, currency, fmv) == Some(false)
      && fmv.JObject? && Lookup(fmv.members, currency).Some?
      && Lookup(fmv.members, currency).value.JStr?
      && DecimalText(Lookup(fmv.members, currency).value.str).None?
  {
  }

  /** The currency matches an object holding it: true exactly when the fmv
      value is a finite number within 0.01 of the label's amount; an absent
      currency never matches. */
  lemma MatchMeaning(value: R.Rat, currency: string, members: seq<(string, LabelSerializer.Json)>)
    ensures var fmv := LabelSerializer.JObject(members);
      (Lookup(members, currency).None? ==> CurrenciesMatch(value, currency, fmv) == Some(false))
      && (CurrenciesMatch(value, currency, fmv) == Some(true) <==>
        exists d :: FmvAmount(Lookup(members, currency)) == Some(Finite(d))
          && R.Lt(R.Abs(R.Sub(d, value)), R.FromDecimal(1, 2)))
  {
    var fmv := LabelSerializer.JObject(members);
    if CurrenciesMatch(value, currency, fmv) == Some(true) {
      var d := FmvAmount(Lookup(members, currency)).value;
      assert d.Finite?;
      assert FmvAmount(Lookup(members, currency)) == Some(Finite(d.v));
    }
  }

  /** The amount an fmv value stands for, when `Decimal` reads one. */
  function FmvAmount(v: Option<LabelSerializer.Json>): Option<Dec> {
    match v
    case None => None
    case Some(j) => if j.JStr? then DecimalText(j.str) else NonStringDecimal(j)
  }

  /** A string fmv value that `Decimal` rejects: the written code raises, the
      corrected one reports a conflict. */
  lemma UnparsableFmv(value: R.Rat, currency: string, str: string)
    requires DecimalText(str).None?
    ensures var fmv := LabelSerializer.JObject([(currency, LabelSerializer.JStr(str))]);
      CurrenciesMatchAsWritten(value, currency, fmv).None?
      && CurrenciesMatch(value, currency, fmv) == Some(false)
  {
  }

  /** Text without a digit is not a finite number. */
  lemma NoDigitsNotFinite(t: string)
    requires forall k :: 0 <= k < |t| ==> !IsDigit(t[k])
    ensures Unsigned(t).None?
  {
    var m := t[..ExponentMark(t)];
    var d := IndexOf(m, '.');
    if d == |m| {
      assert |m| > 0 ==> !IsDigit(m[0]);
    } else {
      var a, b := m[..d], m[d + 1..];
      assert |a| > 0 ==> !IsDigit(a[0]);
      assert |b| > 0 ==> !IsDigit(b[0]);
    }
  }

  /** "abc" is not a number, so an fmv of {"USD": "abc"} on a label "USD 5"
      makes the written view raise. */
  lemma AbcNotDecimal()
    ensures DecimalText("abc").None?
  {
    assert SignedDecimal("abc").None? by {
      LettersNotDecimal("abc");
    }
    assert Strip("abc") == "abc" by {
      AbcStripped();
    }
  }

  lemma AbcStripped()
    ensures Strip("abc") == "abc"
  {
    StripOfNumber("abc");
  }

  /** Text of letters other than those that start "inf", "nan" or "snan" is
      not a decimal. */
  lemma LettersNotDecimal(t: string)
    requires |t| > 0 && LowerChar(t[0]) !in "+-ins"
    requires forall k :: 0 <= k < |t| ==> !IsDigit(t[k])
    ensures SignedDecimal(t).None?
  {
    assert LowerChar(t[0]) != "infinity"[0];
    assert !IsNaNName(t);
    NoDigitsNotFinite(t);
  }

  /** `_parse_fmv`: nothing for a missing or blank text, for text `json.loads`
      rejects, and for the JSON `null`. The JSON parser is the parameter
      `loads`. */
  function ParseFmv(fmv: Option<string>, loads: string -> Option<LabelSerializer.Json>): (r: Option<LabelSerializer.Json>)
    ensures r.Some? ==> fmv.Some? && Strip(fmv.value) != "" && loads(fmv.value) == r && !r.value.JNull?
    ensures fmv.Some? && Strip(fmv.value) != "" && loads(fmv.value).Some? && !loads(fmv.value).value.JNull? ==> r.Some?
  {
    if fmv.None? || fmv.value == "" || Strip(fmv.value) == "" then None
    else match loads(fmv.value)
      case None => None
      case Some(j) => if j.JNull? then None else Some(j)
  }

  /** An output or input label as the view reads it. */
  datatype SyncLabel = SyncLabel(labelType: string, text: string, fmv: Option<string>)

  predicate HasFmvType(l: SyncLabel) {
    l.labelType == "output" || l.labelType == "input"
  }

  datatype Category = TextOnly | FmvOnly | Conflict | Synced | Uncategorized

  /** The category of one label; None where the view raises, which only a
      label with both a text currency and an fmv can do. */
  function CategoryOf(l: SyncLabel, loads: string -> Option<LabelSerializer.Json>): (c: Option<Category>)
    ensures c.None? ==> R.Positive(LabelUtils.ExtractFiatValue(l.text).0) && ParseFmv(l.fmv, loads).Some?
  {
    var lc := LabelUtils.ExtractFiatValue(l.text);
    var fmv := ParseFmv(l.fmv, loads);
    var hasCurrency := R.Positive(lc.0);
    var hasFmv := fmv.Some?;
    if hasCurrency && !hasFmv then Some(TextOnly)
    else if hasFmv && !hasCurrency then Some(FmvOnly)
    else if hasCurrency && hasFmv then
      match CurrenciesMatchAsWritten(lc.0, lc.1, fmv.value)
      case None => None
      case Some(m) => Some(if m then Synced else Conflict)
    else Some(Uncategorized)
  }

  /** A label has a text currency when its amount is positive, and an fmv
      when `_parse_fmv` gives a document: text only, fmv only, neither, or
      both and then synced, a conflict, or a failure of the view as
      `_currencies_match` answers or raises. */
  lemma CategoryMeaning(l: SyncLabel, loads: string -> Option<LabelSerializer.Json>)
    ensures var c := CategoryOf(l, loads);
      var lc := LabelUtils.ExtractFiatValue(l.text);
      var hasCurrency := R.Positive(lc.0);
      var hasFmv := ParseFmv(l.fmv, loads).Some?;
      (c == Some(TextOnly) <==> hasCurrency && !hasFmv)
      && (c == Some(FmvOnly) <==> hasFmv && !hasCurrency)
      && (c == Some(Uncategorized) <==> !hasFmv && !hasCurrency)
      && (c == Some(Synced) <==> (hasFmv && hasCurrency
        && CurrenciesMatchAsWritten(lc.0, lc.1, ParseFmv(l.fmv, loads).value) == Some(true)))
      && (c == Some(Conflict) <==> (hasFmv && hasCurrency
        && CurrenciesMatchAsWritten(lc.0, lc.1, ParseFmv(l.fmv, loads).value) == Some(false)))
      && (c.None? <==> (hasFmv && hasCurrency
        && CurrenciesMatchAsWritten(lc.0, lc.1, ParseFmv(l.fmv, loads).value).None?))
  {
    var lc := LabelUtils.ExtractFiatValue(l.text);
    var fmv := ParseFmv(l.fmv, loads);
    var c := CategoryOf(l, loads);
    if !R.Positive(lc.0) {
      assert c == Some(if fmv.Some? then FmvOnly else Uncategorized);
    } else if fmv.None? {
      assert c == Some(TextOnly);
    } else {
      var m := CurrenciesMatchAsWritten(lc.0, lc.1, fmv.value);
      assert c == if m.None? then None else Some(if m.value then Synced else Conflict);
    }
  }

  /** The four lists of the view, as positions in the labelbase's labels. */
  datatype Categories = Categories(textOnly: seq<nat>, fmvOnly: seq<nat>, conflicts: seq<nat>, synced: seq<nat>)

  /** The position joins the list of its category. */
  function AddTo(cs: Categories, c: Category, i: nat): Categories {
    match c
    case TextOnly => cs.(textOnly := cs.textOnly + [i])
    case FmvOnly => cs.(fmvOnly := cs.fmvOnly + [i])
    case Conflict => cs.(conflicts := cs.conflicts + [i])
    case Synced => cs.(synced := cs.synced + [i])
    case Uncategorized => cs
  }

  /** The categories of the labels with an fmv type, for a given way of
      categorizing one label; None as soon as one label has none. */
  function SyncWith(labels: seq<SyncLabel>, category: SyncLabel -> Option<Category>): Option<Categories> {
    if labels == [] then Some(Categories([], [], [], []))
    else
      var n := |labels| - 1;
      match SyncWith(labels[..n], category)
      case None => None
      case Some(cs) =>
        if !HasFmvType(labels[n]) then Some(cs)
        else match category(labels[n])
          case None => None
          case Some(c) => Some(AddTo(cs, c, n))
  }

  /** The view's categories; None when one of the labels raises. */
  function Sync(labels: seq<SyncLabel>, loads: string -> Option<LabelSerializer.Json>): Option<Categories> {
    SyncWith(labels, l => CategoryOf(l, loads))
  }

  /** The list a category names. */
  function ListOf(cs: Categories, c: Category): seq<nat> {
    match c
    case TextOnly => cs.textOnly
    case FmvOnly => cs.fmvOnly
    case Conflict => cs.conflicts
    case Synced => cs.synced
    case Uncategorized => []
  }

  /** Each list holds exactly the positions of the labels with an fmv type
      of its category. */
  lemma {:induction false} SyncWithLists(labels: seq<SyncLabel>, category: SyncLabel -> Option<Category>, c: Category)
    requires SyncWith(labels, category).Some?
    requires c != Uncategorized
    ensures forall i :: i in ListOf(SyncWith(labels, category).value, c) <==>
      0 <= i < |labels| && HasFmvType(labels[i]) && category(labels[i]) == Some(c)
  {
    if labels != [] {
      var n := |labels| - 1;
      var init := labels[..n];
      SyncWithLists(init, category, c);
      assert forall i :: 0 <= i < n ==> init[i] == labels[i];
    }
  }

  /** Categorizing fails exactly when one label with an fmv type has no
      category. */
  lemma {:induction false} SyncWithFails(labels: seq<SyncLabel>, category: SyncLabel -> Option<Category>)
    ensures SyncWith(labels, category).None? <==>
      exists i :: 0 <= i < |labels| && HasFmvType(labels[i]) && category(labels[i]).None?
  {
    if labels != [] {
      var n := |labels| - 1;
      var init := labels[..n];
      SyncWithFails(init, category);
      assert forall i :: 0 <= i < n ==> init[i] == labels[i];
    }
  }

  /** Each list of the view holds exactly the positions of the output and
      input labels of its category. */
  lemma SyncLists(labels: seq<SyncLabel>, loads: string -> Option<LabelSerializer.Json>, c: Category)
    requires Sync(labels, loads).Some?
    requires c != Uncategorized
    ensures forall i :: i in ListOf(Sync(labels, loads).value, c) <==>
      0 <= i < |labels| && HasFmvType(labels[i]) && CategoryOf(labels[i], loads) == Some(c)
  {
    SyncWithLists(labels, l => CategoryOf(l, loads), c);
  }

  /** The view fails exactly when one output or input label raises. */
  lemma SyncFails(labels: seq<SyncLabel>, loads: string -> Option<LabelSerializer.Json>)
    ensures Sync(labels, loads).None? <==>
      exists i :: 0 <= i < |labels| && HasFmvType(labels[i]) && CategoryOf(labels[i], loads).None?
  {
    SyncWithFails(labels, l => CategoryOf(l, loads));
  }

  /** An output or input label with an amount in its text and a string fmv
      value for that currency that `Decimal` rejects makes the whole view
      fail. */
  lemma UnparsableFmvFailsView(labels: seq<SyncLabel>, loads: string -> Option<LabelSerializer.Json>, i: nat)
    requires i < |labels| && HasFmvType(labels[i])
    requires var lc := LabelUtils.ExtractFiatValue(labels[i].text);
      var fmv := ParseFmv(labels[i].fmv, loads);
      R.Positive(lc.0) && fmv.Some? && fmv.value.JObject?
      && Lookup(fmv.value.members, lc.1).Some? && Lookup(fmv.value.members, lc.1).value.JStr?
      && DecimalText(Lookup(fmv.value.members, lc.1).value.str).None?
    ensures Sync(labels, loads).None?
  {
    assert CategoryOf(labels[i], loads).None?;
    SyncFails(labels, loads);
  }

  /** The lists are pairwise disjoint, and a label with neither a currency in
      its text nor an fmv is in none of them. */
  lemma SyncDisjoint(labels: seq<SyncLabel>, loads: string -> Option<LabelSerializer.Json>, i: nat, c1: Category, c2: Category)
    requires Sync(labels, loads).Some?
    requires c1 != Uncategorized && c2 != Uncategorized
    ensures var cs := Sync(labels, loads).value;
      (i in ListOf(cs, c1) && i in ListOf(cs, c2) ==> c1 == c2)
      && ((i < |labels| && !R.Positive(LabelUtils.ExtractFiatValue(labels[i].text).0)
        && ParseFmv(labels[i].fmv, loads).None?) ==> i !in ListOf(cs, c1))
  {
    SyncLists(labels, loads, c1);
    SyncLists(labels, loads, c2);
  }

  /** The view's loop over the labelbase's labels, skipping those of other
      types; None when a label raises. */
  method CurrencySync(labels: seq<SyncLabel>, loads: string -> Option<LabelSerializer.Json>)
    returns (r: Option<Categories>)
    ensures r == Sync(labels, loads)
  {
    var textOnly: seq<nat>, fmvOnly: seq<nat>, conflicts: seq<nat>, synced: seq<nat> := [], [], [], [];
    var i: nat := 0;
    while i < |labels|
      invariant i <= |labels|
      invariant Sync(labels[..i], loads) == Some(Categories(textOnly, fmvOnly, conflicts, synced))
    {
      var lbl := labels[i];
      SyncStep(labels, loads, i, Categories(textOnly, fmvOnly, conflicts, synced));
      if lbl.labelType == "output" || lbl.labelType == "input" {
        var category := CategorizeLabel(lbl, loads);
        match category
        case None =>
          SyncFailsAt(labels, loads, i);
          return None;
        case Some(TextOnly) => textOnly := textOnly + [i];
        case Some(FmvOnly) => fmvOnly := fmvOnly + [i];
        case Some(Conflict) => conflicts := conflicts + [i];
        case Some(Synced) => synced := synced + [i];
        case Some(Uncategorized) =>
      }
      i := i + 1;
    }
    assert labels[..i] == labels;
    return Some(Categories(textOnly, fmvOnly, conflicts, synced));
  }

  /** The body of the view's loop for one output or input label: its text
      currency and its fmv, compared when it has both. */
  method CategorizeLabel(lbl: SyncLabel, loads: string -> Option<LabelSerializer.Json>)
    returns (category: Option<Category>)
    ensures category == CategoryOf(lbl, loads)
  {
    var labelCurrency := LabelUtils.ExtractFiatValue(lbl.text);
    var fmvData := ParseFmv(lbl.fmv, loads);
    var hasLabelCurrency := R.Positive(labelCurrency.0);
    var hasFmv := fmvData.Some?;
    if hasLabelCurrency && !hasFmv {
      category := Some(TextOnly);
    } else if hasFmv && !hasLabelCurrency {
      category := Some(FmvOnly);
    } else if hasLabelCurrency && hasFmv {
      var matched := CurrenciesMatchAsWritten(labelCurrency.0, labelCurrency.1, fmvData.value);
      if matched.None? {
        return None;
      }
      category := Some(if matched.value then Synced else Conflict);
    } else {
      category := Some(Uncategorized);
    }
  }

  /** One more label: the categories so far, and the label's own when it
      has an fmv type. */
  lemma SyncStep(labels: seq<SyncLabel>, loads: string -> Option<LabelSerializer.Json>, i: nat, cs: Categories)
    requires i < |labels| && Sync(labels[..i], loads) == Some(cs)
    ensures !HasFmvType(labels[i]) ==> Sync(labels[..i + 1], loads) == Some(cs)
    ensures forall c :: HasFmvType(labels[i]) && CategoryOf(labels[i], loads) == Some(c) ==>
      Sync(labels[..i + 1], loads) == Some(AddTo(cs, c, i))
  {
    assert labels[..i + 1][..i] == labels[..i];
  }

  /** A label that raises makes the whole view raise. */
  lemma SyncFailsAt(labels: seq<SyncLabel>, loads: string -> Option<LabelSerializer.Json>, i: nat)
    requires i < |labels| && HasFmvType(labels[i]) && CategoryOf(labels[i], loads).None?
    ensures Sync(labels, loads).None?
  {
    SyncFails(labels, loads);
  }

  // ---------------------------------------------------------------------
  // Missing data and the fill from OutputStat
  // ---------------------------------------------------------------------

  /** The text fields of an output label that the report looks at. */
  datatype FieldName = Height | Time | Value

  /** The attribute name of a field, as the report shows it. */
  function Name(f: FieldName): (name: string)
    ensures name in ["height", "time", "value"]
  {
    match f
    case Height => "height"
    case Time => "time"
    case Value => "value"
  }

  /** The fields the missing-data report looks at, in order. */
  const ApplicableFields: seq<FieldName> := [Height, Time, Value]

  /** The value of one field among the three. */
  function FieldValue(f: FieldName, height: Option<string>, time: Option<string>, value: Option<string>): Option<string> {
    match f
    case Height => height
    case Time => time
    case Value => value
  }

  /** A label of type output with the text fields the report reads; a field
      that was never set is None. */
  class OutputLabel {
    var typeRefHash: string
    var height: Option<string>
    var time: Option<string>
    var value: Option<string>

    constructor(typeRefHash: string, height: Option<string>, time: Option<string>, value: Option<string>)
      ensures this.typeRefHash == typeRefHash && this.height == height && this.time == time && this.value == value
    {
      this.typeRefHash := typeRefHash;
      this.height := height;
      this.time := time;
      this.value := value;
    }

    /** `getattr(label, field, None)`. */
    function Field(f: FieldName): Option<string>
      reads this
    {
      FieldValue(f, height, time, value)
    }

    /** `_get_missing_fields`: the applicable fields whose value is missing. */
    method MissingFields() returns (missing: seq<FieldName>)
      ensures missing == MissingOf(ApplicableFields, height, time, value)
    {
      missing := [];
      var i := 0;
      while i < |ApplicableFields|
        invariant 0 <= i <= |ApplicableFields|
        invariant missing == MissingOf(ApplicableFields[..i], height, time, value)
      {
        var field := ApplicableFields[i];
        KeepStep(ApplicableFields, MissingIn(height, time, value), i);
        var v := Field(field);
        if Missing(v) {
          missing := missing + [field];
        }
        i := i + 1;
      }
      assert ApplicableFields[..i] == ApplicableFields;
    }

    /** `_fill_label_from_outputstat`, given the first OutputStat row of the
        label's output (None when there is none) and the ISO-8601 rendering
        of a Unix time: each empty field is filled from a nonzero value of
        the row; true when a field was filled. */
    method FillFromOutputStat(stat: Option<FinanceModels.OutputStat>, isoTime: int -> string) returns (updated: bool)
      modifies this
      ensures typeRefHash == old(typeRefHash)
      ensures stat.None? ==> !updated && height == old(height) && time == old(time) && value == old(value)
      ensures stat.Some? ==>
        height == FillField(old(height), stat.value.confirmedAtBlockHeight, IntToString(stat.value.confirmedAtBlockHeight))
        && time == FillField(old(time), stat.value.confirmedAtBlockTime, isoTime(stat.value.confirmedAtBlockTime))
        && value == FillField(old(value), stat.value.value, IntToString(stat.value.value))
      ensures updated <==> (stat.Some? && (Fills(old(height), stat.value.confirmedAtBlockHeight)
        || Fills(old(time), stat.value.confirmedAtBlockTime) || Fills(old(value), stat.value.value)))
    {
      if stat.None? {
        return false;
      }
      var outputStat := stat.value;
      updated := false;
      if !Truthy(height) && outputStat.confirmedAtBlockHeight != 0 {
        height := Some(IntToString(outputStat.confirmedAtBlockHeight));
        updated := true;
      }
      if !Truthy(time) && outputStat.confirmedAtBlockTime != 0 {
        time := Some(isoTime(outputStat.confirmedAtBlockTime));
        updated := true;
      }
      if !Truthy(value) && outputStat.value != 0 {
        value := Some(IntToString(outputStat.value));
        updated := true;
      }
    }
  }

  /** Python truthiness of a text field. */
  predicate Truthy(v: Option<string>) {
    v.Some? && v.value != ""
  }

  /** A field is missing when it is empty or only whitespace. */
  predicate Missing(v: Option<string>) {
    !Truthy(v) || Strip(v.value) == ""
  }

  /** The fields among `fields` whose value is missing, in order. */
  function MissingOf(fields: seq<FieldName>, height: Option<string>, time: Option<string>, value: Option<string>): seq<FieldName> {
    Keep(fields, MissingIn(height, time, value))
  }

  /** Whether a field of a label with these values is missing. */
  function MissingIn(height: Option<string>, time: Option<string>, value: Option<string>): FieldName -> bool {
    f => Missing(FieldValue(f, height, time, value))
  }

  /** The fields of `fields` that `keep` selects, in order. */
  function Keep(fields: seq<FieldName>, keep: FieldName -> bool): seq<FieldName> {
    if fields == [] then []
    else
      var f := fields[|fields| - 1];
      Keep(fields[..|fields| - 1], keep) + (if keep(f) then [f] else [])
  }

  /** Keeping one more field of `fields`. */
  lemma KeepStep(fields: seq<FieldName>, keep: FieldName -> bool, i: nat)
    requires i < |fields|
    ensures Keep(fields[..i + 1], keep) == Keep(fields[..i], keep) + (if keep(fields[i]) then [fields[i]] else [])
  {
    assert fields[..i + 1][..i] == fields[..i];
  }

  /** A field is kept exactly when it is one of `fields` and selected. */
  lemma {:induction false} KeepMembers(fields: seq<FieldName>, keep: FieldName -> bool)
    ensures var m := Keep(fields, keep);
      |m| <= |fields| && forall f :: f in m <==> f in fields && keep(f)
  {
    if fields != [] {
      var n := |fields| - 1;
      var init := fields[..n];
      KeepMembers(init, keep);
      assert fields == init + [fields[n]];
    }
  }

  /** The kept fields keep the order of `fields`. */
  lemma {:induction false} KeepOrdered(fields: seq<FieldName>, keep: FieldName -> bool)
    requires forall a, b :: 0 <= a < b < |fields| ==> Rank(fields[a]) < Rank(fields[b])
    ensures var m := Keep(fields, keep);
      forall a, b :: 0 <= a < b < |m| ==> Rank(m[a]) < Rank(m[b])
  {
    if fields != [] {
      var n := |fields| - 1;
      KeepOrdered(fields[..n], keep);
      KeepMembers(fields[..n], keep);
      var m0 := Keep(fields[..n], keep);
      assert forall a :: 0 <= a < |m0| ==> m0[a] in fields[..n];
      assert forall f :: f in fields[..n] ==> Rank(f) < Rank(fields[n]);
    }
  }

  /** The report lists a field exactly when it is missing, in the order
      height, time, value. */
  lemma MissingFieldsMeaning(height: Option<string>, time: Option<string>, value: Option<string>)
    ensures var m := MissingOf(ApplicableFields, height, time, value);
      (Height in m <==> Missing(height)) && (Time in m <==> Missing(time)) && (Value in m <==> Missing(value))
      && (m == [] <==> !Missing(height) && !Missing(time) && !Missing(value))
      && (forall a, b :: 0 <= a < b < |m| ==> Rank(m[a]) < Rank(m[b]))
  {
    MissingFieldsListed(height, time, value);
    ApplicableOrdered();
    KeepOrdered(ApplicableFields, MissingIn(height, time, value));
    assert MissingOf(ApplicableFields, height, time, value) == Keep(ApplicableFields, MissingIn(height, time, value));
  }

  lemma MissingFieldsListed(height: Option<string>, time: Option<string>, value: Option<string>)
    ensures var m := MissingOf(ApplicableFields, height, time, value);
      (Height in m <==> Missing(height)) && (Time in m <==> Missing(time)) && (Value in m <==> Missing(value))
      && (m == [] <==> !Missing(height) && !Missing(time) && !Missing(value))
  {
    var fields := ApplicableFields;
    assert fields[0] == Height && fields[1] == Time && fields[2] == Value;
    KeepMembers(fields, MissingIn(height, time, value));
    var m := MissingOf(fields, height, time, value);
    if m != [] {
      assert m[0] in m;
    }
  }

  lemma ApplicableOrdered()
    ensures forall a, b :: 0 <= a < b < |ApplicableFields| ==> Rank(ApplicableFields[a]) < Rank(ApplicableFields[b])
  {
    forall a, b | 0 <= a < b < |ApplicableFields|
      ensures Rank(ApplicableFields[a]) < Rank(ApplicableFields[b])
    {
      assert Rank(ApplicableFields[a]) == a && Rank(ApplicableFields[b]) == b;
    }
  }

  /** The position of a field among the applicable fields. */
  function Rank(f: FieldName): nat {
    match f
    case Height => 0
    case Time => 1
    case Value => 2
  }

  /** The field is filled: it is empty and the row's value is nonzero. */
  predicate Fills(current: Option<string>, source: int) {
    !Truthy(current) && source != 0
  }

  /** The field after the fill. */
  function FillField(current: Option<string>, source: int, rendered: string): (r: Option<string>)
    ensures Truthy(current) ==> r == current
    ensures source == 0 ==> r == current
    ensures Fills(current, source) ==> r == Some(rendered)
  {
    if Fills(current, source) then Some(rendered) else current
  }

  /** The fill never clears a field, and a height or value it fills is no
      longer missing; a time is no longer missing when its rendering is not
      blank. A blank field that is not empty ("  ") is reported missing but
      never filled. */
  lemma FillMeaning(current: Option<string>, source: int, rendered: string)
    ensures Truthy(current) ==> Truthy(FillField(current, source, rendered))
    ensures Fills(current, source) && Strip(rendered) != "" ==> !Missing(FillField(current, source, rendered))
    ensures Truthy(current) && Missing(current) ==> Missing(FillField(current, source, rendered))
  {
  }

  /** The rendering of a nonzero height or value is not blank, so the fill
      completes it. */
  lemma FilledNumberNotMissing(current: Option<string>, source: int)
    requires Fills(current, source)
    ensures !Missing(FillField(current, source, IntToString(source)))
  {
    var s := IntToString(source);
    var d := if source < 0 then -source else source;
    assert s == if source < 0 then "-" + NatToString(d) else NatToString(d);
    StripOfNumber(s);
  }

  /** `OutputStat.objects.filter(type_ref_hash=..., network=...).first()` among
      the user's rows. */
  function FirstStat(rows: seq<FinanceModels.OutputStat>, typeRefHash: string, network: string): (r: Option<FinanceModels.OutputStat>)
    ensures r.Some? ==> exists i :: (0 <= i < |rows| && rows[i] == r.value
      && r.value.typeRefHash == typeRefHash && r.value.network == network
      && forall j :: 0 <= j < i ==> !(rows[j].typeRefHash == typeRefHash && rows[j].network == network))
    ensures r.None? ==> forall o :: o in rows ==> !(o.typeRefHash == typeRefHash && o.network == network)
  {
    if rows == [] then None
    else if rows[0].typeRefHash == typeRefHash && rows[0].network == network then Some(rows[0])
    else
      var r := FirstStat(rows[1..], typeRefHash, network);
      assert forall j :: 1 <= j < |rows| ==> rows[j] == rows[1..][j - 1];
      r
  }
}
