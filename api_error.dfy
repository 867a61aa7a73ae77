/**
 * The structured error of the Telegraph API (types.go `APIError`) and its
 * `Error()` text.  `ParseErrorText` reads the text back; the round-trip lemma
 * shows the text never loses the code or the description.
 */
module ApiErrors {
  import opened Wrappers
  import Decimal

  /** `code` is 0 when the server did not supply one. */
  datatype ApiError = ApiError(code: int, description: string)

  const Prefix := "Telegraph API error"
  const PlainPrefix := "Telegraph API error: "
  const CodedPrefix := "Telegraph API error (code "

  /** "Telegraph API error (code N): D" when the code is non-zero, else "Telegraph API error: D". */
  function ErrorText(e: ApiError): (s: string)
    ensures Prefix <= s
    ensures |s| >= |e.description| && s[|s| - |e.description|..] == e.description
  {
    if e.code != 0 then CodedPrefix + Decimal.Format(e.code) + "): " + e.description
    else PlainPrefix + e.description
  }

  /** Index of the first occurrence of `c` in `s`. */
  function IndexOf(s: string, c: char): (r: Option<nat>)
    ensures r.Some? ==> r.value < |s| && s[r.value] == c && c !in s[..r.value]
    ensures r.None? ==> c !in s
  {
    if s == [] then None
    else if s[0] == c then Some(0)
    else match IndexOf(s[1..], c)
      case None => None
      case Some(k) =>
        assert s[..k + 1] == [s[0]] + s[1..][..k];
        Some(k + 1)
  }

  predicate IsNumber(t: string) {
    |t| > 0 && forall k :: 0 <= k < |t| ==> Decimal.IsDigit(t[k]) || (k == 0 && t[k] == '-')
  }

  /** Reads an error text back into the code and description it was made from. */
  function ParseErrorText(s: string): Option<ApiError> {
    if CodedPrefix <= s then
      var rest := s[|CodedPrefix|..];
      match IndexOf(rest, ')')
      case None => None
      case Some(k) =>
        var digits := rest[..k];
        var after := rest[k..];
        if IsNumber(digits) && "): " <= after then Some(ApiError(Decimal.Parse(digits), after[3..]))
        else None
    else if PlainPrefix <= s then Some(ApiError(0, s[|PlainPrefix|..]))
    else None
  }

  lemma {:induction false} IndexOfAfter(a: string, c: char, b: string)
    requires c !in a
    ensures IndexOf(a + [c] + b, c) == Some(|a|)
  {
    if a != [] {
      assert (a + [c] + b)[1..] == a[1..] + [c] + b;
      IndexOfAfter(a[1..], c, b);
    } else {
      assert (a + [c] + b)[0] == c;
    }
  }

  /** The error text determines the error: code and description are recovered exactly. */
  lemma ErrorTextRoundTrip(e: ApiError)
    ensures ParseErrorText(ErrorText(e)) == Some(e)
  {
    var s := ErrorText(e);
    if e.code != 0 {
      var f := Decimal.Format(e.code);
      assert s == CodedPrefix + (f + [')'] + (": " + e.description));
      assert s[|CodedPrefix|..] == f + [')'] + (": " + e.description);
      assert ')' !in f;
      IndexOfAfter(f, ')', ": " + e.description);
      var rest := s[|CodedPrefix|..];
      assert rest[..|f|] == f;
      assert rest[|f|..] == "): " + e.description;
      Decimal.FormatRoundTrip(e.code);
    } else {
      assert s[19] == ':';
      assert !(CodedPrefix <= s);
      assert s[|PlainPrefix|..] == e.description;
    }
  }

  /** The source's two shapes: a coded error shows its code in decimal, a code of 0 is omitted. */
  lemma ErrorTextExamples(d: string)
    ensures ErrorText(ApiError(400, d)) == CodedPrefix + "400" + "): " + d
    ensures ErrorText(ApiError(0, d)) == PlainPrefix + d
  {
    assert Decimal.Digits(4) == "4";
    assert Decimal.Digits(40) == "40";
    assert Decimal.Format(400) == "400";
  }
}
