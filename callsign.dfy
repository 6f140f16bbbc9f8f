/**
 * Callsign checks of `src/utils.py`: `is_valid_callsign` (format of an ICAO airline
 * callsign) and `is_non_us_callsign` (prefix outside the four U.S. carriers).
 */
module Callsign {
  import opened PyStr
  import opened Py

  /** `airline_icao_codes`: the airlines whose flights are kept. */
  const AirlineIcaoCodes: seq<string> := [
    // Star Alliance
    "AEE", "ACA", "CCA", "AIC", "ANZ", "ANA", "AAR", "AUA", "AVA", "BEL", "CMP", "CTN",
    "MSR", "ETH", "EVA", "LOT", "DLH", "CSZ", "SIA", "SAA", "SWR", "TAP", "THA", "THY",
    // Oneworld
    "BAW", "CPA", "FJI", "FIN", "IBE", "JAL", "MAS", "QFA", "QTR", "RAM", "RJA", "ALK",
    // SkyTeam
    "ARG", "AMX", "AEA", "AFR", "CAL", "CES", "GIA", "KQA", "KLM", "KAL", "MEA", "SVA",
    "SAS", "ROT", "HVN", "VIR", "CXA", "AFL",
    // Other flag carriers
    "BBC", "TAM", "EIN", "ELY", "BWA", "PIA", "ETD", "UAE", "TUA", "UZB", "VCV", "PAL",
    "MGL", "KZR", "GFA", "AUI", "TAR", "DAH",
    // Low cost carriers
    "RYR", "IGO", "EZY", "AXM", "GLO", "NOZ", "VLG", "WZZ", "JST",
    // U.S. carriers
    "UAL", "AAL", "DAL", "ENY"
  ]

  /** The prefixes `is_non_us_callsign` treats as U.S. carriers. */
  const UsCarrierCodes: seq<string> := ["UAL", "DAL", "AAL", "ENY"]

  /** A cell of the `callsign` column: a string, or some other value (pandas' NaN, a number). */
  datatype Cell = Text(s: string) | NotText

  predicate IsDigit(c: char) { '0' <= c <= '9' }

  predicate IsUpperLetter(c: char) { 'A' <= c <= 'Z' }

  predicate AllDigits(t: string) {
    forall i :: 0 <= i < |t| ==> IsDigit(t[i])
  }

  /** `re.fullmatch(r'\d{1,4}[A-Z]?', t)` succeeds: a trailing capital is optional, the rest is 1 to 4 digits. */
  predicate SuffixMatches(t: string) {
    var d := if |t| > 0 && IsUpperLetter(t[|t| - 1]) then |t| - 1 else |t|;
    1 <= d <= 4 && AllDigits(t[..d])
  }

  /** `callsign.strip().upper()`. */
  function Normalize(s: string): string {
    Upper(Strip(s))
  }

  /** `is_valid_callsign`, with the suffix check of line 66 as the character predicate `SuffixMatches`. */
  predicate IsValidCallsign(c: Cell) {
    match c
    case NotText => false
    case Text(s) =>
      var t := Normalize(s);
      4 <= |t| <= 8 && t[..3] in AirlineIcaoCodes && SuffixMatches(t[3..])
  }

  /**
   * `is_valid_callsign` exactly as written: `utils.py` never imports `re`, so every
   * callsign that passes the length and prefix checks raises `NameError` at line 66.
   */
  function IsValidCallsignAsWritten(c: Cell): (r: Py<bool>)
    ensures r != Returns(true)
    ensures !r.ReturnsNone?
  {
    match c
    case NotText => Returns(false)
    case Text(s) =>
      var t := Normalize(s);
      if !(4 <= |t| <= 8) then Returns(false)
      else if t[..3] !in AirlineIcaoCodes then Returns(false)
      else Raises(NameError)
  }

  /** `is_non_us_callsign`: false exactly when the string starts with one of the four U.S. prefixes. */
  function IsNonUsCallsign(callsign: string): (r: bool)
    ensures !r <==> |callsign| >= 3 && callsign[..3] in UsCarrierCodes
  {
    var prefix := callsign[..if |callsign| < 3 then |callsign| else 3];
    prefix !in UsCarrierCodes
  }

  /** The regular expression of line 66, read piece by piece: `\d{1,4}` then `[A-Z]?`. */
  lemma SuffixMatchesIff(t: string)
    ensures SuffixMatches(t) <==>
      exists n :: 1 <= n <= 4 && n <= |t| && AllDigits(t[..n])
        && (|t| == n || (|t| == n + 1 && IsUpperLetter(t[n])))
  {
    if SuffixMatches(t) {
      var d := if |t| > 0 && IsUpperLetter(t[|t| - 1]) then |t| - 1 else |t|;
      assert 1 <= d <= 4 && AllDigits(t[..d]) && (|t| == d || (|t| == d + 1 && IsUpperLetter(t[d])));
    }
    if n :| 1 <= n <= 4 && n <= |t| && AllDigits(t[..n]) && (|t| == n || (|t| == n + 1 && IsUpperLetter(t[n]))) {
      if |t| == n {
        assert t[..n] == t;
        assert t[n - 1] == t[..n][n - 1];
        assert !IsUpperLetter(t[|t| - 1]);
      }
    }
  }

  /** A suffix that matches is 1 to 4 digits, then at most one capital letter. */
  lemma SuffixShape(u: string)
    requires SuffixMatches(u)
    ensures 1 <= |u| <= 5 && IsDigit(u[0])
    ensures forall i :: 0 <= i < |u| - 1 ==> IsDigit(u[i])
    ensures IsDigit(u[|u| - 1]) || IsUpperLetter(u[|u| - 1])
    ensures IsDigit(u[|u| - 1]) ==> |u| <= 4
  {
    var d := if |u| > 0 && IsUpperLetter(u[|u| - 1]) then |u| - 1 else |u|;
    assert forall i :: 0 <= i < d ==> u[..d][i] == u[i];
  }

  /**
   * A valid callsign, once stripped and upper-cased, has 4 to 8 characters, an airline code as its
   * first three, then 1 to 4 digits and at most one trailing capital letter.
   */
  lemma ValidCallsignShape(s: string)
    requires IsValidCallsign(Text(s))
    ensures var t := Normalize(s);
      && 4 <= |t| <= 8
      && t[..3] in AirlineIcaoCodes
      && IsDigit(t[3])
      && (forall i :: 3 <= i < |t| - 1 ==> IsDigit(t[i]))
      && (IsDigit(t[|t| - 1]) || IsUpperLetter(t[|t| - 1]))
      && (IsDigit(t[|t| - 1]) ==> |t| <= 7)
  {
    var t := Normalize(s);
    var u := t[3..];
    SuffixShape(u);
    assert forall i :: 3 <= i < |t| ==> t[i] == u[i - 3];
  }

  /** Validation ignores case and surrounding whitespace. */
  lemma ValidIgnoresCaseAndSpace(s: string)
    ensures IsValidCallsign(Text(s)) == IsValidCallsign(Text(Strip(Upper(s))))
  {
    calc {
      Normalize(Strip(Upper(s)));
      Upper(Strip(Strip(Upper(s))));
      { StripIdempotent(Upper(s)); }
      Upper(Strip(Upper(s)));
      { UpperStripCommute(s); }
      Upper(Upper(Strip(s)));
      { UpperIdempotent(Strip(s)); }
      Normalize(s);
    }
  }

  /** As written, the check raises exactly where the intended check would look at the suffix, and otherwise agrees. */
  lemma AsWrittenRaisesAtSuffixCheck(c: Cell)
    ensures IsValidCallsignAsWritten(c).Raises? <==>
      c.Text? && 4 <= |Normalize(c.s)| <= 8 && Normalize(c.s)[..3] in AirlineIcaoCodes
    ensures IsValidCallsignAsWritten(c).Returns? ==> !IsValidCallsign(c)
    ensures IsValidCallsign(c) ==> IsValidCallsignAsWritten(c) == Raises(NameError)
  {
  }

  /** The callsign of the source's own comment at line 54: valid as intended, `NameError` as written. */
  lemma ExampleUal1()
    ensures IsValidCallsign(Text("UAL1"))
    ensures IsValidCallsignAsWritten(Text("UAL1")) == Raises(NameError)
  {
    var s := "UAL1";
    assert !IsSpace(s[0]) && !IsSpace(s[3]);
    LStripKeepsUnspaced(s);
    RStripKeepsUnspaced(s);
    assert Strip(s) == s;
    assert Upper(s) == s;
    assert Normalize(s) == s;
    assert s[..3] == AirlineIcaoCodes[81];
    assert s[3..] == "1";
    assert SuffixMatches(s[3..]);
  }
}
