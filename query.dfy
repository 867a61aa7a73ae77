/**
 * The query string of a `getPage` call (client.go `GetPage`, which uses Go's
 * `url.Values.Encode`): keys in sorted order, each value percent-encoded as a
 * query component over the UTF-8 bytes of the string.
 */
module Query {
  import opened Wrappers
  import Validation

  type Byte = b: int | 0 <= b < 256

  /** The UTF-8 encoding of one character. */
  function CharUtf8(c: char): (r: seq<Byte>)
    ensures |r| == Validation.CharBytes(c)
    ensures c as int < 0x80 ==> r == [c as int]
    ensures c as int >= 0x80 ==> forall i :: 0 <= i < |r| ==> r[i] >= 0x80
  {
    var cp := c as int;
    if cp < 0x80 then [cp]
    else if cp < 0x800 then [0xC0 + cp / 64, 0x80 + cp % 64]
    else if cp < 0x1_0000 then [0xE0 + cp / 4096, 0x80 + (cp / 64) % 64, 0x80 + cp % 64]
    else [0xF0 + cp / 262144, 0x80 + (cp / 4096) % 64, 0x80 + (cp / 64) % 64, 0x80 + cp % 64]
  }

  function Utf8(s: string): (r: seq<Byte>)
    ensures |r| == Validation.Utf8Len(s)
  {
    if s == [] then [] else CharUtf8(s[0]) + Utf8(s[1..])
  }

  /** Bytes a query component leaves as they are: letters, digits and `-_.~`. */
  predicate Unreserved(b: Byte) {
    ('A' as int <= b <= 'Z' as int) || ('a' as int <= b <= 'z' as int) || ('0' as int <= b <= '9' as int)
    || b == '-' as int || b == '_' as int || b == '.' as int || b == '~' as int
  }

  /** The upper-case hexadecimal digit of `d`. */
  function HexDigit(d: int): (c: char)
    requires 0 <= d < 16
    ensures '0' <= c <= '9' || 'A' <= c <= 'F'
  {
    if d < 10 then ('0' as int + d) as char else ('A' as int + d - 10) as char
  }

  function HexValue(c: char): Option<int> {
    if '0' <= c <= '9' then Some(c as int - '0' as int)
    else if 'A' <= c <= 'F' then Some(c as int - 'A' as int + 10)
    else if 'a' <= c <= 'f' then Some(c as int - 'a' as int + 10)
    else None
  }

  lemma HexRoundTrip(d: int)
    requires 0 <= d < 16
    ensures HexValue(HexDigit(d)) == Some(d)
  {
  }

  /** One byte as a query component: itself, `+` for a space, `%XX` otherwise. */
  function EscapeByte(b: Byte): (s: string)
    ensures 1 <= |s| <= 3
    ensures forall i :: 0 <= i < |s| ==> s[i] as int < 0x80 && s[i] != '&' && s[i] != '='
  {
    if Unreserved(b) then [b as char]
    else if b == ' ' as int then "+"
    else ['%', HexDigit(b / 16), HexDigit(b % 16)]
  }

  function EscapeBytes(bs: seq<Byte>): string {
    if bs == [] then "" else EscapeByte(bs[0]) + EscapeBytes(bs[1..])
  }

  /** `url.QueryEscape`. */
  function QueryEscape(s: string): string {
    EscapeBytes(Utf8(s))
  }

  /** `url.QueryUnescape` on bytes: `%XX` is a byte, `+` a space, any other ASCII character itself. */
  function Unescape(s: string): Option<seq<Byte>>
    decreases |s|
  {
    if s == [] then Some([])
    else if s[0] == '%' then
      if |s| < 3 then None
      else match (HexValue(s[1]), HexValue(s[2]))
        case (Some(h), Some(l)) =>
          (match Unescape(s[3..])
           case None => None
           case Some(rest) => Some([h * 16 + l] + rest))
        case _ => None
    else if s[0] == '+' then
      match Unescape(s[1..])
      case None => None
      case Some(rest) => Some([' ' as int] + rest)
    else if s[0] as int < 0x80 then
      match Unescape(s[1..])
      case None => None
      case Some(rest) => Some([s[0] as int] + rest)
    else None
  }

  lemma UnescapeByte(b: Byte, rest: string)
    ensures Unescape(EscapeByte(b) + rest) ==
      match Unescape(rest)
      case None => None
      case Some(r) => Some([b] + r)
  {
    var s := EscapeByte(b) + rest;
    if Unreserved(b) {
      assert s[1..] == rest;
    } else if b == ' ' as int {
      assert s[1..] == rest;
    } else {
      assert s[0] == '%' && s[1] == HexDigit(b / 16) && s[2] == HexDigit(b % 16);
      assert s[3..] == rest;
      HexRoundTrip(b / 16);
      HexRoundTrip(b % 16);
    }
  }

  /** Escaping loses nothing: unescaping gives back exactly the bytes. */
  lemma {:induction false} EscapeRoundTrip(bs: seq<Byte>)
    ensures Unescape(EscapeBytes(bs)) == Some(bs)
  {
    if bs != [] {
      EscapeRoundTrip(bs[1..]);
      UnescapeByte(bs[0], EscapeBytes(bs[1..]));
      assert [bs[0]] + bs[1..] == bs;
    }
  }

  /** No escaped component contains the `&` or `=` that separate query pairs. */
  lemma {:induction false} EscapedHasNoSeparators(bs: seq<Byte>)
    ensures forall i :: 0 <= i < |EscapeBytes(bs)| ==> EscapeBytes(bs)[i] != '&' && EscapeBytes(bs)[i] != '='
  {
    if bs != [] {
      EscapedHasNoSeparators(bs[1..]);
      var s := EscapeBytes(bs);
      assert s == EscapeByte(bs[0]) + EscapeBytes(bs[1..]);
      forall i | 0 <= i < |s| ensures s[i] != '&' && s[i] != '=' {
        if i >= |EscapeByte(bs[0])| {
          assert s[i] == EscapeBytes(bs[1..])[i - |EscapeByte(bs[0])|];
        }
      }
    }
  }

  /** The getPage query: `path`, then `return_content=true` when content is asked
      for.  Whatever the path holds, its value cannot break out of its pair. */
  function GetPageQuery(path: string, returnContent: bool): (q: string)
    ensures "path=" <= q && |q| >= 5 + |QueryEscape(path)|
    ensures forall i :: 5 <= i < 5 + |QueryEscape(path)| ==> q[i] != '&' && q[i] != '='
  {
    var e := QueryEscape(path);
    EscapedHasNoSeparators(Utf8(path));
    var q := "path=" + e + (if returnContent then "&return_content=true" else "");
    assert forall i :: 5 <= i < 5 + |e| ==> q[i] == e[i - 5];
    q
  }

  /** The path can be read back from the query, whatever characters it holds. */
  lemma GetPageQueryRecoversPath(path: string, returnContent: bool)
    ensures var q := GetPageQuery(path, returnContent);
      |q| >= 5 + |QueryEscape(path)| && Unescape(q[5..5 + |QueryEscape(path)|]) == Some(Utf8(path))
    ensures returnContent ==> GetPageQuery(path, returnContent)[5 + |QueryEscape(path)|..] == "&return_content=true"
  {
    var q := GetPageQuery(path, returnContent);
    var e := QueryEscape(path);
    assert q[5..5 + |e|] == e;
    EscapeRoundTrip(Utf8(path));
  }

  /** A path of letters, digits and `-_.~` is sent verbatim. */
  lemma {:induction false} PlainPathVerbatim(path: string)
    requires forall i :: 0 <= i < |path| ==> path[i] as int < 0x80 && Unreserved(path[i] as int)
    ensures QueryEscape(path) == path
  {
    if path != [] {
      PlainPathVerbatim(path[1..]);
      assert CharUtf8(path[0]) == [path[0] as int];
      assert EscapeByte(path[0] as int) == [path[0]];
      assert Utf8(path) == [path[0] as int] + Utf8(path[1..]);
      assert EscapeBytes(Utf8(path)) == [path[0]] + EscapeBytes(Utf8(path[1..]));
      assert [path[0]] + path[1..] == path;
    }
  }

  /** A space becomes `+` and a slash `%2F`. */
  lemma QueryExamples()
    ensures EscapeBytes([' ' as int, '/' as int]) == "+%2F"
  {
    assert EscapeByte('/' as int) == "%2F";
    assert EscapeBytes(['/' as int]) == "%2F";
  }
}
