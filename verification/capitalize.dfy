/**
 * The front end's `capitalize` helper: every space-separated word gets an upper-case
 * first character and a lower-case rest; the spaces themselves are left where they are.
 */
module CapitalizeUtil {
  import opened Wrappers
  import opened Text

  /** `char.charAt(0).toUpperCase() + char.slice(1).toLowerCase()` for one word. */
  function CapitalizeWord(w: string): (r: string)
    ensures |r| == |w|
    ensures w != [] ==> r[0] == Upper(w[0])
    ensures forall i :: 0 < i < |w| ==> r[i] == Lower(w[i])
  {
    if w == [] then [] else [Upper(w[0])] + LowerAll(w[1..])
  }

  /** `.map(...)` over the words. */
  function CapitalizeWords(ws: seq<string>): (r: seq<string>)
    ensures |r| == |ws|
    ensures forall k :: 0 <= k < |ws| ==> r[k] == CapitalizeWord(ws[k])
  {
    if ws == [] then [] else [CapitalizeWord(ws[0])] + CapitalizeWords(ws[1..])
  }

  /** `e.split(" ").map(...).join(" ")`. */
  function CapitalizeText(s: string): string {
    Join(CapitalizeWords(Split(s, ' ')), ' ')
  }

  /** `capitalize`: `None` stands for a value that is not a string, for which nothing is returned. */
  function Capitalize(e: Option<string>): (r: Option<string>)
    ensures r.Some? <==> e.Some?
    ensures e.Some? ==> |r.value| == |e.value|
    ensures e.Some? ==> forall i :: 0 <= i < |e.value| ==> r.value[i] == CapChar(e.value, i)
  {
    match e
    case None => None
    case Some(s) => CapitalizeAt(s); Some(CapitalizeText(s))
  }

  /**
   * The reference definition, one character at a time: a character that starts the text or
   * follows a space is upper-cased, every other one lower-cased.
   */
  function CapChar(s: string, i: nat): char
    requires i < |s|
  {
    if i == 0 || s[i - 1] == ' ' then Upper(s[i]) else Lower(s[i])
  }

  lemma UpperLowerKeepSpace(c: char)
    ensures Upper(c) == ' ' <==> c == ' '
    ensures Lower(c) == ' ' <==> c == ' '
  {
  }

  /** Capitalizing the words of a text without spaces is capitalizing one word. */
  lemma CapitalizeTextSplit(s: string)
    ensures ' ' !in s ==> CapitalizeText(s) == CapitalizeWord(s)
    ensures ' ' in s ==> CapitalizeText(s) == CapitalizeWord(s[..IndexOf(s, ' ')]) + [' '] + CapitalizeText(s[IndexOf(s, ' ') + 1..])
  {
    if ' ' in s {
      var i := IndexOf(s, ' ');
      var rest := Split(s[i + 1..], ' ');
      assert Split(s, ' ') == [s[..i]] + rest;
      var ws := CapitalizeWords([s[..i]] + rest);
      assert ws == [CapitalizeWord(s[..i])] + CapitalizeWords(rest);
      assert ws[1..] == CapitalizeWords(rest);
    }
  }

  /** The split-map-join text agrees with the reference definition at every position. */
  lemma {:induction false} CapitalizeAt(s: string)
    ensures |CapitalizeText(s)| == |s|
    ensures forall i :: 0 <= i < |s| ==> CapitalizeText(s)[i] == CapChar(s, i)
    decreases |s|
  {
    if ' ' in s {
      CapitalizeAt(s[IndexOf(s, ' ') + 1..]);
      CapitalizeFirstWord(s);
    } else {
      CapitalizeOneWord(s);
    }
  }

  /** If the text after the first space agrees with the reference, so does the whole text. */
  lemma CapitalizeFirstWord(s: string)
    requires ' ' in s
    requires var rest := s[IndexOf(s, ' ') + 1..];
             |CapitalizeText(rest)| == |rest| && forall j :: 0 <= j < |rest| ==> CapitalizeText(rest)[j] == CapChar(rest, j)
    ensures |CapitalizeText(s)| == |s|
    ensures forall i :: 0 <= i < |s| ==> CapitalizeText(s)[i] == CapChar(s, i)
  {
    var n := IndexOf(s, ' ');
    var w := s[..n];
    var rest := s[n + 1..];
    CapitalizeTextSplit(s);
    CapitalizeJoined(s, n, CapitalizeText(rest));
  }

  /**
   * The first word capitalized, the space, then text that agrees with the reference on the
   * rest: the whole agrees with the reference.
   */
  lemma CapitalizeJoined(s: string, n: nat, b: string)
    requires n < |s| && s[n] == ' ' && ' ' !in s[..n]
    requires |b| == |s| - n - 1 && forall j :: 0 <= j < |b| ==> b[j] == CapChar(s[n + 1..], j)
    ensures var r := CapitalizeWord(s[..n]) + [' '] + b;
            |r| == |s| && forall i :: 0 <= i < |s| ==> r[i] == CapChar(s, i)
  {
    var a := CapitalizeWord(s[..n]);
    var r := a + [' '] + b;
    forall i | 0 <= i < |s|
      ensures r[i] == CapChar(s, i)
    {
      if i < n {
        CapitalizeFirstPart(s, n, i);
        assert r[i] == a[i];
      } else if i == n {
        UpperLowerKeepSpace(' ');
      } else {
        CapitalizeRestPart(s, n, i);
        assert r[i] == b[i - n - 1];
      }
    }
  }

  /** Before the first space, the word's own capitalization is the reference one. */
  lemma CapitalizeFirstPart(s: string, n: nat, i: nat)
    requires n <= |s| && ' ' !in s[..n] && i < n
    ensures CapitalizeWord(s[..n])[i] == CapChar(s, i)
  {
    var w := s[..n];
    assert s[i] == w[i];
    if 0 < i {
      assert s[i - 1] == w[i - 1];
      assert w[i - 1] in w;
    }
  }

  /** After a space, the reference reads the rest of the text on its own. */
  lemma CapitalizeRestPart(s: string, n: nat, i: nat)
    requires n < i < |s| && s[n] == ' '
    ensures CapChar(s[n + 1..], i - n - 1) == CapChar(s, i)
  {
    var j := i - n - 1;
    assert s[i] == s[n + 1..][j];
    if j > 0 {
      assert s[i - 1] == s[n + 1..][j - 1];
    }
  }

  /** A text without spaces is one word: only its first character is upper-cased. */
  lemma CapitalizeOneWord(s: string)
    requires ' ' !in s
    ensures |CapitalizeText(s)| == |s|
    ensures forall i :: 0 <= i < |s| ==> CapitalizeText(s)[i] == CapChar(s, i)
  {
    CapitalizeTextSplit(s);
    forall i | 0 <= i < |s|
      ensures s[i] != ' '
    {
      assert s[i] in s;
    }
  }

  /** Capitalized words contain no space, so the result splits back into the capitalized words. */
  lemma CapitalizeKeepsWords(s: string)
    ensures Split(CapitalizeText(s), ' ') == CapitalizeWords(Split(s, ' '))
    ensures |Split(CapitalizeText(s), ' ')| == |Split(s, ' ')|
  {
    var ws := CapitalizeWords(Split(s, ' '));
    forall k | 0 <= k < |ws|
      ensures ' ' !in ws[k]
    {
      var w := Split(s, ' ')[k];
      forall i | 0 <= i < |w|
        ensures ws[k][i] != ' '
      {
        assert w[i] in w;
        UpperLowerKeepSpace(w[i]);
      }
    }
    SplitJoin(ws, ' ');
  }

  /** Spaces stay exactly where they were. */
  lemma CapitalizeKeepsSpaces(s: string)
    ensures |CapitalizeText(s)| == |s|
    ensures forall i :: 0 <= i < |s| ==> (CapitalizeText(s)[i] == ' ' <==> s[i] == ' ')
  {
    CapitalizeAt(s);
    forall i | 0 <= i < |s|
      ensures CapitalizeText(s)[i] == ' ' <==> s[i] == ' '
    {
      UpperLowerKeepSpace(s[i]);
    }
  }

  /** Capitalizing twice is capitalizing once. */
  lemma CapitalizeIdempotent(s: string)
    ensures CapitalizeText(CapitalizeText(s)) == CapitalizeText(s)
  {
    var r := CapitalizeText(s);
    CapitalizeAt(s);
    CapitalizeAt(r);
    CapitalizeKeepsSpaces(s);
    forall i | 0 <= i < |r|
      ensures CapitalizeText(r)[i] == r[i]
    {
      if i > 0 {
        assert r[i - 1] == ' ' <==> s[i - 1] == ' ';
      }
    }
  }
}
