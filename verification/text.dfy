/**
 String handling on the page: the whitespace trimming applied to the message
 before a QR code is generated (`update_qrcode`), and the shortening of long
 destination URLs on the dashboard (`loadDashboard`). A Dafny `string` is a
 sequence of Unicode scalar values; JavaScript's `length` and `substring`
 count UTF-16 code units instead, so the URL shortening works on the UTF-16
 encoding of the URL (`Utf16`). Trimming needs no such care: every space
 character lies below U+10000 and is not a surrogate, so it is one code unit
 either way.
 */
module Text {

  /**
   A character matched by `[\s\u3000]` in a JavaScript regular expression:
   the ECMAScript WhiteSpace and LineTerminator characters (U+3000 is already
   one of them).
   */
  const SpaceChars: set<char> := {
    '\t', '\n', '\U{B}', '\U{C}', '\r', ' ', '\U{A0}', '\U{1680}',
    '\U{2000}', '\U{2001}', '\U{2002}', '\U{2003}', '\U{2004}', '\U{2005}',
    '\U{2006}', '\U{2007}', '\U{2008}', '\U{2009}', '\U{200A}',
    '\U{2028}', '\U{2029}', '\U{202F}', '\U{205F}', '\U{3000}', '\U{FEFF}'
  }

  predicate IsSpace(c: char) {
    c in SpaceChars
  }

  predicate AllSpace(s: string) {
    forall k :: 0 <= k < |s| ==> IsSpace(s[k])
  }

  /** Every character of `s[i..j]` is a space. */
  predicate SpaceBetween(s: string, i: nat, j: nat)
    requires i <= j <= |s|
  {
    forall k :: i <= k < j ==> IsSpace(s[k])
  }

  /** Neither end of `s` is a space (trivially so for the empty string). */
  predicate Trimmed(s: string) {
    s == [] || (!IsSpace(s[0]) && !IsSpace(s[|s| - 1]))
  }

  /** The index just past the run of spaces that starts at `i`. */
  function SkipSpaces(s: string, i: nat): (k: nat)
    requires i <= |s|
    ensures i <= k <= |s|
    ensures SpaceBetween(s, i, k)
    ensures k < |s| ==> !IsSpace(s[k])
    decreases |s| - i
  {
    if i < |s| && IsSpace(s[i]) then SkipSpaces(s, i + 1) else i
  }

  /** The index where the run of spaces that ends at `j` begins, going no lower than `lo`. */
  function SkipSpacesBack(s: string, lo: nat, j: nat): (k: nat)
    requires lo <= j <= |s|
    ensures lo <= k <= j
    ensures SpaceBetween(s, k, j)
    ensures lo < k ==> !IsSpace(s[k - 1])
    decreases j - lo
  {
    if lo < j && IsSpace(s[j - 1]) then SkipSpacesBack(s, lo, j - 1) else j
  }

  /**
   `s.replace(/^[\s\u3000]+|[\s\u3000]+$/g, '')`: the message with its
   leading and trailing spaces removed. The result is the contiguous part
   `s[i..i + |r|]` of the input, everything cut off on either side is space,
   and nothing more could be cut.
   */
  function Trim(s: string): (r: string)
    ensures Trimmed(r)
    ensures exists i :: 0 <= i <= |s| - |r| && r == s[i..i + |r|] && SpaceBetween(s, 0, i) && SpaceBetween(s, i + |r|, |s|)
    ensures r == [] <==> AllSpace(s)
  {
    var i := SkipSpaces(s, 0);
    var j := SkipSpacesBack(s, i, |s|);
    s[i..j]
  }

  /**
   Any way of cutting `s` into spaces, a middle with no space at either end,
   and spaces is the cut Trim makes.
   */
  lemma TrimUnique(s: string, i: nat, j: nat)
    requires i <= j <= |s|
    requires SpaceBetween(s, 0, i) && SpaceBetween(s, j, |s|)
    requires Trimmed(s[i..j])
    ensures Trim(s) == s[i..j]
  {
    if i < j {
      assert s[i..j][0] == s[i] && s[i..j][j - i - 1] == s[j - 1];
      var a := SkipSpaces(s, 0);
      assert a == i;
      var b := SkipSpacesBack(s, a, |s|);
      assert b == j;
    }
  }

  /** Trimming twice changes nothing more. */
  lemma TrimIdempotent(s: string)
    ensures Trim(Trim(s)) == Trim(s)
  {
    var r := Trim(s);
    assert r[0..|r|] == r;
    TrimUnique(r, 0, |r|);
  }

  /** A UTF-16 code unit: what JavaScript's string `length` and `substring` count. */
  newtype CodeUnit = x: int | 0 <= x < 0x1_0000

  /** A character that UTF-16 encodes as one code unit (below U+10000). */
  predicate IsBmp(c: char) {
    c as int < 0x1_0000
  }

  predicate AllBmp(s: string) {
    forall k :: 0 <= k < |s| ==> IsBmp(s[k])
  }

  /**
   The UTF-16 encoding of one character: the character itself below U+10000,
   otherwise a high surrogate (U+D800..U+DBFF) followed by a low surrogate
   (U+DC00..U+DFFF) carrying the upper and lower ten bits of `c - 0x10000`.
   */
  function EncodeChar(c: char): (u: seq<CodeUnit>)
    ensures IsBmp(c) ==> u == [c as int as CodeUnit]
    ensures !IsBmp(c) ==> |u| == 2 && 0xD800 <= u[0] < 0xDC00 <= u[1] < 0xE000
    ensures !IsBmp(c) ==> (u[0] as int - 0xD800) * 0x400 + (u[1] as int - 0xDC00) + 0x1_0000 == c as int
  {
    if IsBmp(c) then [c as int as CodeUnit]
    else
      var x := c as int - 0x1_0000;
      [(0xD800 + x / 0x400) as CodeUnit, (0xDC00 + x % 0x400) as CodeUnit]
  }

  /**
   The UTF-16 encoding of a string, the sequence JavaScript holds. It has at
   least one code unit per character, and for a string of characters below
   U+10000 it is the same sequence of numbers.
   */
  function Utf16(s: string): (u: seq<CodeUnit>)
    ensures |u| >= |s|
    ensures |u| == |s| <==> AllBmp(s)
    ensures AllBmp(s) ==> forall k :: 0 <= k < |s| ==> u[k] as int == s[k] as int
  {
    if s == [] then [] else EncodeChar(s[0]) + Utf16(s[1..])
  }

  /** Encoding a concatenation encodes the two parts one after the other. */
  lemma {:induction false} Utf16Append(a: string, b: string)
    ensures Utf16(a + b) == Utf16(a) + Utf16(b)
  {
    if a == [] {
      assert a + b == b;
    } else {
      assert (a + b)[0] == a[0] && (a + b)[1..] == a[1..] + b;
      Utf16Append(a[1..], b);
    }
  }

  /** The dashboard shows at most this many code units of a destination URL. */
  const UrlDisplayLength: nat := 40

  /** The three dots `'...'` appended to a shortened URL, as code units. */
  const Ellipsis: seq<CodeUnit> := [0x2E, 0x2E, 0x2E]

  /**
   `url.length > 40 ? url.substring(0, 40) + '...' : url`, on the URL's
   UTF-16 code units: URLs of at most 40 code units are shown whole, longer
   ones as their first 40 code units and an ellipsis of three dots.
   */
  function DisplayUrl(url: string): (shown: seq<CodeUnit>)
    ensures |Utf16(url)| <= UrlDisplayLength ==> shown == Utf16(url)
    ensures |Utf16(url)| > UrlDisplayLength ==> |shown| == UrlDisplayLength + 3
    ensures |Utf16(url)| > UrlDisplayLength ==>
      shown[..UrlDisplayLength] == Utf16(url)[..UrlDisplayLength] && shown[UrlDisplayLength..] == Ellipsis
  {
    var u := Utf16(url);
    if |u| > UrlDisplayLength then u[..UrlDisplayLength] + Ellipsis else u
  }

  /**
   The shown text agrees with the URL's code units on the first 40, is never
   longer than 43 code units, and is the URL itself exactly when the URL is
   short or already reads like a shortened one (43 code units ending "...").
   */
  lemma DisplayUrlProperties(url: string)
    ensures |DisplayUrl(url)| <= UrlDisplayLength + 3
    ensures |Utf16(url)| <= UrlDisplayLength ==> DisplayUrl(url)[..|Utf16(url)|] == Utf16(url)
    ensures |Utf16(url)| > UrlDisplayLength ==> DisplayUrl(url)[..UrlDisplayLength] == Utf16(url)[..UrlDisplayLength]
    ensures DisplayUrl(url) == Utf16(url) <==>
      |Utf16(url)| <= UrlDisplayLength || (|Utf16(url)| == UrlDisplayLength + 3 && Utf16(url)[UrlDisplayLength..] == Ellipsis)
  {
    var u := Utf16(url);
    if |u| == UrlDisplayLength + 3 && u[UrlDisplayLength..] == Ellipsis {
      assert u == u[..UrlDisplayLength] + u[UrlDisplayLength..];
    }
  }

  /**
   For a URL of characters below U+10000 the code units are the characters,
   so the 40-unit limit is a 40-character limit.
   */
  lemma DisplayUrlOfBmp(url: string)
    requires AllBmp(url)
    ensures |url| <= UrlDisplayLength ==> |DisplayUrl(url)| == |url| && forall k :: 0 <= k < |url| ==> DisplayUrl(url)[k] as int == url[k] as int
    ensures |url| > UrlDisplayLength ==> forall k :: 0 <= k < UrlDisplayLength ==> DisplayUrl(url)[k] as int == url[k] as int
  {
  }

  /**
   A 40-character URL whose last character lies above U+10000 is 41 code
   units long, so it is shortened, and the cut keeps only the high surrogate
   of that character.
   */
  lemma AstralCharCountsTwice()
    ensures var url := seq(39, _ => 'a') + ['\U{1F600}'];
      && |url| == UrlDisplayLength
      && DisplayUrl(url) != Utf16(url)
      && |DisplayUrl(url)| == UrlDisplayLength + 3
      && DisplayUrl(url)[UrlDisplayLength - 1] == 0xD83D
  {
    var prefix := seq(39, _ => 'a');
    var url := prefix + ['\U{1F600}'];
    assert AllBmp(prefix);
    Utf16Append(prefix, ['\U{1F600}']);
    assert Utf16(['\U{1F600}']) == EncodeChar('\U{1F600}');
    assert |Utf16(url)| == 41;
  }
}
