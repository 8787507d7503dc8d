/**
 * The initials the profile page shows in the avatar when there is no picture: the first
 * character of each space-separated word, upper-cased, at most two of them, and "U" for a
 * profile without a name.
 */
module Profile {
  import opened Text

  /** `.map(n => n[0]).join('')`: an empty word has no first character and adds nothing. */
  function Heads(ws: seq<string>): (r: string)
    ensures |r| <= |ws|
  {
    if ws == [] then [] else (if ws[0] == [] then [] else [ws[0][0]]) + Heads(ws[1..])
  }

  /** `getInitials`. */
  function GetInitials(name: string): (r: string)
    ensures |r| <= 2
    ensures forall i :: 0 <= i < |r| ==> !IsAsciiLower(r[i])
  {
    Take(UpperAll(Heads(Split(name, ' '))), 2)
  }

  /** The fallback placeholder for a missing name. */
  const Placeholder := "U"

  /** `getInitials(profile.name || 'U')`. */
  function AvatarInitials(name: string): (r: string)
    ensures name == [] ==> r == Placeholder
    ensures name != [] ==> r == GetInitials(name)
  {
    GetInitials(if name == [] then Placeholder else name)
  }

  /**
   * The reference definition, one character at a time: the characters that are not spaces
   * and start the text or follow a space. `afterSpace` says whether the previous character
   * was a space (or there was none).
   */
  function WordStarts(s: string, afterSpace: bool): string {
    if s == [] then []
    else (if afterSpace && s[0] != ' ' then [s[0]] else []) + WordStarts(s[1..], s[0] == ' ')
  }

  lemma {:induction false} WordStartsAppend(a: string, b: string, afterSpace: bool)
    ensures WordStarts(a + b, afterSpace) == WordStarts(a, afterSpace) + WordStarts(b, if a == [] then afterSpace else a[|a| - 1] == ' ')
    decreases |a|
  {
    if a != [] {
      var h := if afterSpace && a[0] != ' ' then [a[0]] else [];
      var after := a[|a| - 1] == ' ';
      assert (if a[1..] == [] then a[0] == ' ' else a[1..][|a| - 2] == ' ') == after;
      calc {
        WordStarts(a + b, afterSpace);
      == { assert (a + b)[0] == a[0] && (a + b)[1..] == a[1..] + b; }
        h + WordStarts(a[1..] + b, a[0] == ' ');
      == { WordStartsAppend(a[1..], b, a[0] == ' '); }
        h + (WordStarts(a[1..], a[0] == ' ') + WordStarts(b, after));
      == { AppendAssoc(h, WordStarts(a[1..], a[0] == ' '), WordStarts(b, after)); }
        WordStarts(a, afterSpace) + WordStarts(b, after);
      }
    } else {
      assert a + b == b;
    }
  }

  /** Inside a word (no space in it) nothing starts except at its first character. */
  lemma {:induction false} WordStartsInWord(w: string, afterSpace: bool)
    requires ' ' !in w
    ensures WordStarts(w, afterSpace) == if afterSpace && w != [] then [w[0]] else []
  {
    if w != [] {
      assert ' ' !in w[1..] by {
        forall i | 0 <= i < |w[1..]| ensures w[1..][i] != ' ' {
          assert w[1..][i] == w[i + 1];
          assert w[i + 1] in w;
        }
      }
      assert w[0] in w;
      WordStartsInWord(w[1..], false);
    }
  }

  /** The first word's head, then the heads of the words after the first space. */
  lemma HeadsOfSplit(s: string)
    requires ' ' in s
    ensures var w := s[..IndexOf(s, ' ')];
            Heads(Split(s, ' ')) == (if w == [] then [] else [w[0]]) + Heads(Split(s[IndexOf(s, ' ') + 1..], ' '))
  {
    var n := IndexOf(s, ' ');
    var ws := Split(s[n + 1..], ' ');
    SplitCons(s, ' ');
    HeadsCons(s[..n], ws);
  }

  lemma HeadsCons(w: string, ws: seq<string>)
    ensures Heads([w] + ws) == (if w == [] then [] else [w[0]]) + Heads(ws)
  {
    assert ([w] + ws)[1..] == ws;
  }

  /** A space starts nothing, and what follows it is read as after a space. */
  lemma WordStartsAfterSpace(rest: string, afterSpace: bool)
    ensures WordStarts([' '] + rest, afterSpace) == WordStarts(rest, true)
  {
    assert ([' '] + rest)[1..] == rest;
  }

  /** Split-map-join picks exactly the word starts of the text. */
  lemma {:induction false} HeadsAreWordStarts(s: string)
    ensures Heads(Split(s, ' ')) == WordStarts(s, true)
    decreases |s|
  {
    if ' ' in s {
      var n := IndexOf(s, ' ');
      HeadsAreWordStarts(s[n + 1..]);
      HeadsFirstWord(s);
    } else {
      HeadsOneWord(s);
    }
  }

  /** A text without spaces is one word, whose head is its only start. */
  lemma HeadsOneWord(s: string)
    requires ' ' !in s
    ensures Heads(Split(s, ' ')) == WordStarts(s, true)
  {
    assert Split(s, ' ') == [s];
    WordStartsInWord(s, true);
  }

  /** If the text after the first space agrees, so does the whole text. */
  lemma HeadsFirstWord(s: string)
    requires ' ' in s
    requires var rest := s[IndexOf(s, ' ') + 1..]; Heads(Split(rest, ' ')) == WordStarts(rest, true)
    ensures Heads(Split(s, ' ')) == WordStarts(s, true)
  {
    var n := IndexOf(s, ' ');
    var w := s[..n];
    var rest := s[n + 1..];
    var hw := if w == [] then [] else [w[0]];
    var after := if w == [] then true else w[|w| - 1] == ' ';
    calc {
      Heads(Split(s, ' '));
    == { HeadsOfSplit(s); }
      hw + WordStarts(rest, true);
    == { WordStartsAfterSpace(rest, after); }
      hw + WordStarts([' '] + rest, after);
    == { WordStartsInWord(w, true); }
      WordStarts(w, true) + WordStarts([' '] + rest, after);
    == { WordStartsAppend(w, [' '] + rest, true); }
      WordStarts(w + ([' '] + rest), true);
    == { assert s == w + ([' '] + rest); }
      WordStarts(s, true);
    }
  }

  /** The initials are the first two word starts, upper-cased. */
  lemma InitialsAreWordStarts(name: string)
    ensures GetInitials(name) == Take(UpperAll(WordStarts(name, true)), 2)
  {
    HeadsAreWordStarts(name);
  }

  /** A name made only of spaces has no initials at all. */
  lemma {:induction false} SpacesHaveNoWordStarts(s: string, afterSpace: bool)
    requires forall i :: 0 <= i < |s| ==> s[i] == ' '
    ensures WordStarts(s, afterSpace) == []
  {
    if s != [] {
      SpacesHaveNoWordStarts(s[1..], true);
    }
  }

  /** A name of spaces only gives an empty avatar text; the "U" placeholder covers only the empty name. */
  lemma BlankNameHasNoInitials(name: string)
    requires name != []
    requires forall i :: 0 <= i < |name| ==> name[i] == ' '
    ensures AvatarInitials(name) == []
  {
    InitialsAreWordStarts(name);
    SpacesHaveNoWordStarts(name, true);
  }

  /** Two words give the upper-cased first letter of each. */
  lemma TwoWordInitials(first: string, last: string)
    requires first != [] && last != []
    requires ' ' !in first && ' ' !in last
    ensures AvatarInitials(first + " " + last) == [Upper(first[0]), Upper(last[0])]
  {
    var s := first + " " + last;
    assert s == first + ([' '] + last);
    calc {
      WordStarts(s, true);
    == { WordStartsAppend(first, [' '] + last, true); }
      WordStarts(first, true) + WordStarts([' '] + last, first[|first| - 1] == ' ');
    == { WordStartsAfterSpace(last, first[|first| - 1] == ' '); }
      WordStarts(first, true) + WordStarts(last, true);
    == { WordStartsInWord(first, true); WordStartsInWord(last, true); }
      [first[0], last[0]];
    }
    InitialsAreWordStarts(s);
  }
}
