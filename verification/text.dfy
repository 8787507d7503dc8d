/**
 * Character and string helpers shared by the Rust, TypeScript and Python parts of the
 * system: Unicode whitespace as each language's `trim` understands it, character-count
 * truncation (`chars().take(n)`), ASCII case mapping, splitting and joining on one
 * separator, decimal formatting and truncating division.
 */
module Text {

  /** Rust's `char::is_whitespace`: the Unicode White_Space property. */
  predicate IsRustWhitespace(c: char) {
    c == ' ' || ('\t' <= c <= '\r') || c == '\U{0085}' || c == '\U{00A0}' || c == '\U{1680}'
    || ('\U{2000}' <= c <= '\U{200A}') || c == '\U{2028}' || c == '\U{2029}'
    || c == '\U{202F}' || c == '\U{205F}' || c == '\U{3000}'
  }

  /**
   * What JavaScript's `String.prototype.trim` strips: WhiteSpace and LineTerminator.
   * It differs from Rust by U+FEFF (stripped) and U+0085 (kept).
   */
  predicate IsJsWhitespace(c: char) {
    c == ' ' || ('\t' <= c <= '\r') || c == '\U{00A0}' || c == '\U{1680}'
    || ('\U{2000}' <= c <= '\U{200A}') || c == '\U{2028}' || c == '\U{2029}'
    || c == '\U{202F}' || c == '\U{205F}' || c == '\U{3000}' || c == '\U{FEFF}'
  }

  predicate IsBlankBy(s: string, ws: char -> bool) {
    forall i :: 0 <= i < |s| ==> ws(s[i])
  }

  /** Drops the leading characters `ws` accepts. */
  function TrimStartBy(s: string, ws: char -> bool): (r: string)
    ensures |r| <= |s| && r == s[|s| - |r|..]
    ensures forall i :: 0 <= i < |s| - |r| ==> ws(s[i])
    ensures r != [] ==> !ws(r[0])
    ensures r == [] <==> IsBlankBy(s, ws)
  {
    if s != [] && ws(s[0]) then TrimStartBy(s[1..], ws) else s
  }

  /** Drops the trailing characters `ws` accepts. */
  function TrimEndBy(s: string, ws: char -> bool): (r: string)
    ensures |r| <= |s| && r == s[..|r|]
    ensures forall i :: |r| <= i < |s| ==> ws(s[i])
    ensures r != [] ==> !ws(r[|r| - 1])
    ensures r == [] <==> IsBlankBy(s, ws)
  {
    if s != [] && ws(s[|s| - 1]) then TrimEndBy(s[..|s| - 1], ws) else s
  }

  /** `r` is the slice of `s` at `i`, with only characters `ws` accepts on either side. */
  predicate MiddleAt(s: string, r: string, i: int, ws: char -> bool) {
    0 <= i <= |s| - |r| && r == s[i..i + |r|]
    && (forall k :: 0 <= k < i ==> ws(s[k]))
    && (forall k :: i + |r| <= k < |s| ==> ws(s[k]))
  }

  /** Drops the leading and trailing characters `ws` accepts: what is left is a middle slice of `s`. */
  function TrimBy(s: string, ws: char -> bool): (r: string)
    ensures r == [] <==> IsBlankBy(s, ws)
    ensures |r| <= |s|
    ensures r != [] ==> !ws(r[0]) && !ws(r[|r| - 1])
    ensures exists i :: MiddleAt(s, r, i, ws)
  {
    var t := TrimStartBy(s, ws);
    MiddleOfTrims(s, t, TrimEndBy(t, ws), ws);
    TrimEndBy(t, ws)
  }

  /** Trimming the end of what trimming the start left behind gives a middle slice. */
  lemma MiddleOfTrims(s: string, t: string, r: string, ws: char -> bool)
    requires |t| <= |s| && t == s[|s| - |t|..] && forall k :: 0 <= k < |s| - |t| ==> ws(s[k])
    requires |r| <= |t| && r == t[..|r|] && forall k :: |r| <= k < |t| ==> ws(t[k])
    ensures MiddleAt(s, r, |s| - |t|, ws)
  {
    var i := |s| - |t|;
    assert s[i..i + |r|] == t[..|r|];
    forall k | i + |r| <= k < |s|
      ensures ws(s[k])
    {
      assert s[k] == t[k - i];
    }
  }

  /** Rust's `str::trim`. */
  function RustTrim(s: string): string { TrimBy(s, IsRustWhitespace) }

  /** JavaScript's `String.prototype.trim`. */
  function JsTrim(s: string): string { TrimBy(s, IsJsWhitespace) }

  /** Rust's `s.chars().take(n).collect()`: the first `n` characters. */
  function Take(s: string, n: nat): (r: string)
    ensures |r| == if |s| <= n then |s| else n
    ensures r == s[..|r|]
  {
    if |s| <= n then s else s[..n]
  }

  /** No string occurs twice in `s`. */
  predicate Distinct(s: seq<string>) {
    forall i, j :: 0 <= i < j < |s| ==> s[i] != s[j]
  }

  predicate StartsWith(s: string, prefix: string) {
    |prefix| <= |s| && s[..|prefix|] == prefix
  }

  predicate IsAsciiLower(c: char) { 'a' <= c <= 'z' }
  predicate IsAsciiUpper(c: char) { 'A' <= c <= 'Z' }
  predicate IsAsciiDigit(c: char) { '0' <= c <= '9' }

  /**
   * Letters and digits as Rust's `char::is_alphanumeric` sees them, for ASCII and for the
   * Latin letters U+00C0..U+024F (all letters except the signs U+00D7 and U+00F7).
   */
  predicate IsAlphanumeric(c: char) {
    IsAsciiLower(c) || IsAsciiUpper(c) || IsAsciiDigit(c)
    || ('\U{00C0}' <= c <= '\U{024F}' && c != '\U{00D7}' && c != '\U{00F7}')
  }

  /** Upper case of one character; only ASCII letters change. */
  function Upper(c: char): (u: char)
    ensures !IsAsciiLower(u)
    ensures !IsAsciiLower(c) ==> u == c
  {
    if IsAsciiLower(c) then (c as int - 32) as char else c
  }

  /** Lower case of one character; only ASCII letters change. */
  function Lower(c: char): (l: char)
    ensures !IsAsciiUpper(l)
    ensures !IsAsciiUpper(c) ==> l == c
  {
    if IsAsciiUpper(c) then (c as int + 32) as char else c
  }

  function UpperAll(s: string): (r: string)
    ensures |r| == |s|
    ensures forall i :: 0 <= i < |s| ==> r[i] == Upper(s[i])
  {
    if s == [] then [] else [Upper(s[0])] + UpperAll(s[1..])
  }

  function LowerAll(s: string): (r: string)
    ensures |r| == |s|
    ensures forall i :: 0 <= i < |s| ==> r[i] == Lower(s[i])
  {
    if s == [] then [] else [Lower(s[0])] + LowerAll(s[1..])
  }

  /** `s.split(sep)` in JavaScript and Python: always at least one piece. */
  function Split(s: string, sep: char): (ws: seq<string>)
    ensures |ws| >= 1
    ensures forall k :: 0 <= k < |ws| ==> sep !in ws[k]
    decreases |s|
  {
    if sep in s then
      var i := IndexOf(s, sep);
      [s[..i]] + Split(s[i + 1..], sep)
    else
      [s]
  }

  /** With a separator present: the text before its first occurrence, then the pieces after it. */
  lemma SplitCons(s: string, sep: char)
    requires sep in s
    ensures Split(s, sep) == [s[..IndexOf(s, sep)]] + Split(s[IndexOf(s, sep) + 1..], sep)
  {
  }

  function IndexOf(s: string, c: char): (i: nat)
    requires c in s
    ensures i < |s| && s[i] == c && c !in s[..i]
  {
    if s[0] == c then 0 else 1 + IndexOf(s[1..], c)
  }

  /** `ws.join(sep)`. */
  function Join(ws: seq<string>, sep: char): string {
    if ws == [] then ""
    else if |ws| == 1 then ws[0]
    else ws[0] + [sep] + Join(ws[1..], sep)
  }

  /** Concatenation regroups freely. */
  lemma AppendAssoc<T>(x: seq<T>, y: seq<T>, z: seq<T>)
    ensures x + (y + z) == x + y + z
  {
  }

  lemma {:induction false} JoinSplit(s: string, sep: char)
    ensures Join(Split(s, sep), sep) == s
    decreases |s|
  {
    if sep in s {
      var i := IndexOf(s, sep);
      var rest := Split(s[i + 1..], sep);
      calc {
        Join(Split(s, sep), sep);
      == { SplitCons(s, sep); }
        Join([s[..i]] + rest, sep);
      == { JoinCons(s[..i], rest, sep); }
        s[..i] + [sep] + Join(rest, sep);
      == { JoinSplit(s[i + 1..], sep); }
        s[..i] + [sep] + s[i + 1..];
      == { assert s == s[..i] + [sep] + s[i + 1..]; }
        s;
      }
    }
  }

  /** Joining a first piece before at least one more puts the separator between them. */
  lemma JoinCons(w: string, ws: seq<string>, sep: char)
    requires ws != []
    ensures Join([w] + ws, sep) == w + [sep] + Join(ws, sep)
  {
    assert ([w] + ws)[1..] == ws;
  }

  lemma {:induction false} SplitJoin(ws: seq<string>, sep: char)
    requires |ws| >= 1
    requires forall k :: 0 <= k < |ws| ==> sep !in ws[k]
    ensures Split(Join(ws, sep), sep) == ws
  {
    if |ws| > 1 {
      var s := Join(ws, sep);
      var tail := Join(ws[1..], sep);
      assert s == ws[0] + [sep] + tail;
      assert s[|ws[0]|] == sep;
      assert s[..|ws[0]|] == ws[0];
      assert sep in s;
      var i := IndexOf(s, sep);
      assert i == |ws[0]|;
      assert s[i + 1..] == tail;
      SplitJoin(ws[1..], sep);
    }
  }

  /** Joining one more piece appends the separator and the piece. */
  lemma {:induction false} JoinSnoc(ws: seq<string>, x: string, sep: char)
    ensures Join(ws + [x], sep) == if ws == [] then x else Join(ws, sep) + [sep] + x
  {
    if |ws| > 1 {
      assert (ws + [x])[1..] == ws[1..] + [x];
      JoinSnoc(ws[1..], x, sep);
    } else if |ws| == 1 {
      assert (ws + [x])[1..] == [x];
    }
  }

  /** Extending the last piece by a separator and a word extends the joined text the same way. */
  lemma JoinExtendLast(ws: seq<string>, c: string, w: string, sep: char)
    ensures Join(ws + [c + [sep] + w], sep) == Join(ws + [c], sep) + [sep] + w
  {
    JoinSnoc(ws, c + [sep] + w, sep);
    JoinSnoc(ws, c, sep);
    if ws != [] {
      AppendAssoc(Join(ws, sep) + [sep], c + [sep], w);
      AppendAssoc(Join(ws, sep) + [sep], c, [sep]);
    }
  }

  function DigitChar(d: nat): (c: char)
    requires d < 10
    ensures IsAsciiDigit(c)
  {
    "0123456789"[d]
  }

  /** Decimal text of a natural number, as Rust's `{}` and Python's `str` print it. */
  function NatToString(n: nat): (s: string)
    ensures |s| >= 1
    ensures forall i :: 0 <= i < |s| ==> IsAsciiDigit(s[i])
  {
    if n < 10 then [DigitChar(n)] else NatToString(n / 10) + [DigitChar(n % 10)]
  }

  function IntToString(i: int): string {
    if i < 0 then "-" + NatToString(-i) else NatToString(i)
  }

  /** Integer division rounding toward zero, as Rust's `/` on signed integers. */
  function TruncDiv(a: int, b: int): (q: int)
    requires b > 0
    ensures a >= 0 ==> 0 <= q && b * q <= a < b * (q + 1)
    ensures a < 0 ==> q <= 0 && b * (q - 1) < a <= b * q
  {
    if a >= 0 then
      FloorDivBounds(a, b);
      a / b
    else
      FloorDivBounds(-a, b);
      assert b * (-((-a) / b)) == -(b * ((-a) / b));
      assert b * (-((-a) / b) - 1) == -(b * ((-a) / b + 1));
      -((-a) / b)
  }

  lemma FloorDivBounds(n: nat, b: int)
    requires b > 0
    ensures 0 <= n / b && b * (n / b) <= n < b * (n / b + 1)
  {
    var q, m := n / b, n % b;
    assert n == b * q + m && 0 <= m < b;
    assert b * (q + 1) == b * q + b;
  }
}
