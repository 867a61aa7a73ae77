/**
 * The author-URL check of types.go (`isValidURL`).  The source matches the
 * fixed regular expression  ^https?://[^\s/$.?#].[^\s]*$  (with `\s` meaning
 * tab, newline, form feed, carriage return and space, and `.` any character
 * but a newline).  `IsValidUrl` is the hand-written predicate; `Matches` is a
 * small backtracking matcher for patterns made of single-character items, and
 * `IsValidUrlIsRegex` proves the two agree on every string.
 */
module Urls {

  /** The characters Go's regexp syntax calls `\s`. */
  const Whitespace: seq<char> := [' ', '\t', '\n', '\U{C}', '\r']

  predicate IsSpace(c: char) {
    c in Whitespace
  }

  /** What may follow the scheme: one host character that is neither white
      space nor one of / $ . ? #, then any character but a newline, then no
      white space at all. */
  predicate ValidAfterScheme(r: string) {
    && |r| >= 2
    && !IsSpace(r[0]) && r[0] !in "/$.?#"
    && r[1] != '\n'
    && forall i :: 2 <= i < |r| ==> !IsSpace(r[i])
  }

  /** The empty string is accepted (the field is optional); anything else must
      be an http or https URL. */
  predicate IsValidUrl(s: string)
    ensures IsValidUrl(s) ==> forall i :: 0 <= i < |s| ==> s[i] != '\n'
  {
    if s == "" then true
    else if "https://" <= s then ValidAfterScheme(s[8..])
    else if "http://" <= s then ValidAfterScheme(s[7..])
    else false
  }

  // ---- reference: the regular expression itself ----

  datatype CharClass = Is(c: char) | NoneOf(excluded: seq<char>)

  predicate InClass(k: CharClass, c: char) {
    match k
    case Is(x) => c == x
    case NoneOf(xs) => c !in xs
  }

  /** A pattern item: exactly one, at most one (`?`) or any number (`*`) of a class. */
  datatype Item = One(k: CharClass) | Opt(k: CharClass) | Star(k: CharClass)

  /** Whether the whole of `s` matches the pattern `p` (anchored at both ends). */
  predicate Matches(p: seq<Item>, s: string)
    decreases |p|, |s|
  {
    if p == [] then s == []
    else match p[0]
      case One(k) => |s| > 0 && InClass(k, s[0]) && Matches(p[1..], s[1..])
      case Opt(k) => (|s| > 0 && InClass(k, s[0]) && Matches(p[1..], s[1..])) || Matches(p[1..], s)
      case Star(k) => (|s| > 0 && InClass(k, s[0]) && Matches(p, s[1..])) || Matches(p[1..], s)
  }

  function Literal(lit: string): (p: seq<Item>)
    ensures |p| == |lit|
    ensures forall i :: 0 <= i < |lit| ==> p[i] == One(Is(lit[i]))
  {
    if lit == [] then [] else [One(Is(lit[0]))] + Literal(lit[1..])
  }

  /** The tail after the scheme: [^\s/$.?#] . [^\s]* */
  const HostPattern: seq<Item> :=
    [One(NoneOf(Whitespace + ['/', '$', '.', '?', '#'])), One(NoneOf(['\n'])), Star(NoneOf(Whitespace))]

  /** ^https?://[^\s/$.?#].[^\s]*$ */
  const UrlPattern: seq<Item> := Literal("http") + [Opt(Is('s'))] + Literal("://") + HostPattern

  lemma {:induction false} LiteralMatches(lit: string, p: seq<Item>, s: string)
    ensures Matches(Literal(lit) + p, s) <==> lit <= s && Matches(p, s[|lit|..])
  {
    if lit != [] {
      var q := Literal(lit) + p;
      assert q[0] == One(Is(lit[0]));
      assert q[1..] == Literal(lit[1..]) + p;
      if |s| > 0 {
        LiteralMatches(lit[1..], p, s[1..]);
        if |s| >= |lit| {
          assert s[1..][|lit| - 1..] == s[|lit|..];
        }
        assert lit <= s <==> s[0] == lit[0] && lit[1..] <= s[1..];
      }
    } else {
      assert Literal(lit) + p == p;
    }
  }

  lemma {:induction false} StarMatchesAll(k: CharClass, s: string)
    ensures Matches([Star(k)], s) <==> forall i :: 0 <= i < |s| ==> InClass(k, s[i])
  {
    assert [Star(k)][1..] == [];
    if |s| > 0 {
      StarMatchesAll(k, s[1..]);
      assert forall i :: 1 <= i < |s| ==> s[1..][i - 1] == s[i];
    }
  }

  lemma HostPatternMatches(r: string)
    ensures Matches(HostPattern, r) <==> ValidAfterScheme(r)
  {
    var h := HostPattern;
    assert h[1..][1..] == [Star(NoneOf(Whitespace))];
    if |r| >= 2 {
      StarMatchesAll(NoneOf(Whitespace), r[2..]);
      assert forall i :: 2 <= i < |r| ==> r[2..][i - 2] == r[i];
      assert r[0] in Whitespace + ['/', '$', '.', '?', '#'] <==> IsSpace(r[0]) || r[0] in "/$.?#";
    }
  }

  /** After "http": an optional `s`, then "://", then the host pattern. */
  lemma AfterHttpMatches(t: string)
    ensures Matches([Opt(Is('s'))] + (Literal("://") + HostPattern), t) <==>
      (|t| >= 4 && t[0] == 's' && "://" <= t[1..] && ValidAfterScheme(t[4..]))
      || ("://" <= t && ValidAfterScheme(t[3..]))
  {
    var afterS := Literal("://") + HostPattern;
    assert ([Opt(Is('s'))] + afterS)[1..] == afterS;
    LiteralMatches("://", HostPattern, t);
    if "://" <= t {
      HostPatternMatches(t[3..]);
    }
    if |t| > 0 {
      LiteralMatches("://", HostPattern, t[1..]);
      if |t| >= 4 {
        assert t[1..][3..] == t[4..];
        HostPatternMatches(t[4..]);
      }
    }
  }

  /** The hand-written check accepts exactly what the source's regular
      expression matches, plus the empty string. */
  lemma IsValidUrlIsRegex(s: string)
    ensures IsValidUrl(s) <==> s == "" || Matches(UrlPattern, s)
  {
    var afterS := Literal("://") + HostPattern;
    assert UrlPattern == Literal("http") + ([Opt(Is('s'))] + afterS);
    LiteralMatches("http", [Opt(Is('s'))] + afterS, s);
    if "http" <= s {
      var t := s[4..];
      AfterHttpMatches(t);
      if |t| >= 4 {
        assert t[4..] == s[8..] && t[1..4] == s[5..8];
      }
      if |t| >= 3 {
        assert t[3..] == s[7..] && t[..3] == s[4..7];
      }
      assert "https://" <= s <==> |t| >= 4 && t[0] == 's' && "://" <= t[1..];
      assert "http://" <= s <==> "://" <= t;
    }
  }

  /** The cases of the source's test table. */
  lemma HttpsExampleAccepted()
    ensures IsValidUrl("https://example.com")
  {
    var a := "https://example.com";
    assert "https://" <= a;
    assert ValidAfterScheme(a[8..]);
  }

  lemma HttpExampleAccepted()
    ensures IsValidUrl("http://example.com")
  {
    var b := "http://example.com";
    assert "http://" <= b;
    assert ValidAfterScheme(b[7..]);
  }

  /** Appending characters other than white space to a non-empty valid URL keeps it valid. */
  lemma ValidUrlExtends(s: string, u: string)
    requires s != "" && IsValidUrl(s)
    requires forall i :: 0 <= i < |u| ==> !IsSpace(u[i])
    ensures IsValidUrl(s + u)
  {
    var n := if "https://" <= s then 8 else 7;
    assert (s + u)[..n] == s[..n];
    assert (s + u)[n..] == s[n..] + u;
  }

  lemma UrlExamplesRejected()
    ensures !IsValidUrl("not-a-url")
    ensures !IsValidUrl("ftp://example.com")
    ensures !IsValidUrl("https://")
  {
    var a := "not-a-url";
    assert a[0] == 'n';
    assert !("https://" <= a) && !("http://" <= a);
    var b := "ftp://example.com";
    assert b[0] == 'f';
    assert !("https://" <= b) && !("http://" <= b);
  }

  /** A non-empty valid URL is at least nine characters long and, past the
      scheme, the first host character and the one free character that
      follows it, holds no white space: from index 10 for https and from
      index 9 for http. */
  lemma ValidUrlShape(s: string)
    requires s != "" && IsValidUrl(s)
    ensures |s| >= 9
    ensures ("https://" <= s || "http://" <= s)
    ensures "https://" <= s ==> forall i :: 10 <= i < |s| ==> !IsSpace(s[i])
    ensures !("https://" <= s) ==> forall i :: 9 <= i < |s| ==> !IsSpace(s[i])
  {
    if "https://" <= s {
      var r := s[8..];
      assert forall i :: 10 <= i < |s| ==> s[i] == r[i - 8];
    } else {
      var r := s[7..];
      assert forall i :: 9 <= i < |s| ==> s[i] == r[i - 7];
    }
  }
}
