/**
 * The data preparation of the PDF generator: the records handed over as JSON are grouped
 * into sections of item cards, split into pages of three rows of three cards, and the
 * texts printed on a page (wrapped descriptions, the phone line, the palette and the logo)
 * are derived from them. Drawing itself is not part of this model.
 */
module PdfGenerator {
  import opened Wrappers
  import opened Text
  import Settings

  /** A JSON record field: a string, or `None` when the key is absent. */
  type Field = Option<string>

  datatype SectionRecord = SectionRecord(id: Field, name: Field)
  datatype ItemRecord = ItemRecord(code: Field, description: Field, sectionId: Field)
  datatype InfoRecord = InfoRecord(itemCode: Field, name: Field, details: Field)

  /** What one card of a page shows. */
  datatype Card = Card(cod: string, itemName: string, section: string, additionalInfos: seq<string>)
  datatype CardSection = CardSection(name: string, items: seq<Card>)

  /** `record.get(key, '')`. */
  function OrEmpty(f: Field): string {
    if f.Some? then f.value else ""
  }

  // ---------------------------------------------------------------------------------
  // Additional infos
  // ---------------------------------------------------------------------------------

  /** An info is shown when its name and its details are both non-empty. */
  predicate Shown(y: InfoRecord) {
    OrEmpty(y.name) != "" && OrEmpty(y.details) != ""
  }

  function InfoLine(y: InfoRecord): string {
    OrEmpty(y.name) + ": " + OrEmpty(y.details)
  }

  /** The lines `_get_all_infos` builds: the shown infos, in order, as "name: details". */
  function AllInfos(infos: seq<InfoRecord>): (r: seq<string>)
    ensures |r| <= |infos|
  {
    if infos == [] then []
    else
      var n := |infos| - 1;
      AllInfos(infos[..n]) + (if Shown(infos[n]) then [InfoLine(infos[n])] else [])
  }

  /** Every shown info has its line, and every line comes from a shown info. */
  lemma {:induction false} AllInfosMembership(infos: seq<InfoRecord>)
    ensures forall y :: y in infos && Shown(y) ==> InfoLine(y) in AllInfos(infos)
    ensures forall l :: l in AllInfos(infos) ==> exists y :: y in infos && Shown(y) && l == InfoLine(y)
  {
    if infos != [] {
      var n := |infos| - 1;
      assert infos == infos[..n] + [infos[n]];
      AllInfosMembership(infos[..n]);
    }
  }

  /** The lines keep the order of the infos. */
  lemma {:induction false} AllInfosAppend(a: seq<InfoRecord>, b: seq<InfoRecord>)
    ensures AllInfos(a + b) == AllInfos(a) + AllInfos(b)
  {
    if b == [] {
      assert a + b == a;
    } else {
      var n := |b| - 1;
      var tail := if Shown(b[n]) then [InfoLine(b[n])] else [];
      assert (a + b)[..|a| + n] == a + b[..n] && (a + b)[|a| + n] == b[n];
      calc {
        AllInfos(a + b);
        AllInfos(a + b[..n]) + tail;
      == { AllInfosAppend(a, b[..n]); }
        AllInfos(a) + AllInfos(b[..n]) + tail;
      == { AppendAssoc(AllInfos(a), AllInfos(b[..n]), tail); }
        AllInfos(a) + AllInfos(b);
      }
    }
  }

  /** `_get_all_infos`. */
  method GetAllInfos(infos: seq<InfoRecord>) returns (lines: seq<string>)
    ensures lines == AllInfos(infos)
  {
    lines := [];
    for i := 0 to |infos|
      invariant lines == AllInfos(infos[..i])
    {
      var name := OrEmpty(infos[i].name);
      var details := OrEmpty(infos[i].details);
      assert infos[..i + 1][..i] == infos[..i];
      if name != "" && details != "" {
        lines := lines + [name + ": " + details];
      }
    }
    assert infos[..|infos|] == infos;
  }

  // ---------------------------------------------------------------------------------
  // Sections of cards
  // ---------------------------------------------------------------------------------

  /** The infos of one item: those whose item code equals the item's code, absent keys included. */
  function InfosOf(infos: seq<InfoRecord>, code: Field): (r: seq<InfoRecord>)
    ensures forall y :: y in r <==> y in infos && y.itemCode == code
  {
    if infos == [] then []
    else
      var n := |infos| - 1;
      assert infos == infos[..n] + [infos[n]];
      InfosOf(infos[..n], code) + (if infos[n].itemCode == code then [infos[n]] else [])
  }

  function CardOf(x: ItemRecord, s: SectionRecord, infos: seq<InfoRecord>): Card {
    Card(OrEmpty(x.code), OrEmpty(x.description), OrEmpty(s.name), AllInfos(InfosOf(infos, x.code)))
  }

  /**
   * The cards of one section: for each item, in input order, whose section id equals the
   * section's id. A missing key equals a missing key, so an item without a section id
   * lands in every section without an id.
   */
  function CardsOf(items: seq<ItemRecord>, s: SectionRecord, infos: seq<InfoRecord>): (r: seq<Card>)
    ensures |r| <= |items|
  {
    if items == [] then []
    else
      var n := |items| - 1;
      CardsOf(items[..n], s, infos) + (if items[n].sectionId == s.id then [CardOf(items[n], s, infos)] else [])
  }

  /** Every item of the section has its card, every card comes from one, and no item means no card. */
  lemma {:induction false} CardsOfMembership(items: seq<ItemRecord>, s: SectionRecord, infos: seq<InfoRecord>)
    ensures forall x :: x in items && x.sectionId == s.id ==> CardOf(x, s, infos) in CardsOf(items, s, infos)
    ensures forall c :: c in CardsOf(items, s, infos) ==>
              exists x :: x in items && x.sectionId == s.id && c == CardOf(x, s, infos)
    ensures CardsOf(items, s, infos) == [] <==> forall x :: x in items ==> x.sectionId != s.id
  {
    if items != [] {
      var n := |items| - 1;
      assert items == items[..n] + [items[n]];
      CardsOfMembership(items[..n], s, infos);
    }
  }

  /** The cards keep the order of the items. */
  lemma {:induction false} CardsOfAppend(a: seq<ItemRecord>, b: seq<ItemRecord>, s: SectionRecord, infos: seq<InfoRecord>)
    ensures CardsOf(a + b, s, infos) == CardsOf(a, s, infos) + CardsOf(b, s, infos)
  {
    if b == [] {
      assert a + b == a;
    } else {
      var n := |b| - 1;
      assert (a + b)[..|a| + n] == a + b[..n] && (a + b)[|a| + n] == b[n];
      CardsOfAppend(a, b[..n], s, infos);
    }
  }

  /** What `load_items` returns: the sections in input order with their cards, empty sections dropped. */
  function LoadedSections(sections: seq<SectionRecord>, items: seq<ItemRecord>, infos: seq<InfoRecord>): (r: seq<CardSection>)
    ensures |r| <= |sections|
    ensures forall k :: 0 <= k < |r| ==> r[k].items != []
  {
    if sections == [] then []
    else
      var n := |sections| - 1;
      LoadedSections(sections[..n], items, infos) + SectionGroup(sections[n], items, infos)
  }

  /** The group one section contributes: its cards under its name, or nothing when it has none. */
  function SectionGroup(s: SectionRecord, items: seq<ItemRecord>, infos: seq<InfoRecord>): (g: seq<CardSection>)
    ensures |g| <= 1
    ensures forall k :: 0 <= k < |g| ==> g[k].items != []
  {
    var cards := CardsOf(items, s, infos);
    if cards != [] then [CardSection(OrEmpty(s.name), cards)] else []
  }

  lemma LoadedSectionsSnoc(xs: seq<SectionRecord>, s: SectionRecord, items: seq<ItemRecord>, infos: seq<InfoRecord>)
    ensures LoadedSections(xs + [s], items, infos) == LoadedSections(xs, items, infos) + SectionGroup(s, items, infos)
  {
    assert (xs + [s])[..|xs|] == xs;
  }

  /** The sections keep their order. */
  lemma {:induction false} LoadedSectionsAppend(a: seq<SectionRecord>, b: seq<SectionRecord>,
                                                items: seq<ItemRecord>, infos: seq<InfoRecord>)
    ensures LoadedSections(a + b, items, infos) == LoadedSections(a, items, infos) + LoadedSections(b, items, infos)
  {
    if b == [] {
      assert a + b == a;
    } else {
      var n := |b| - 1;
      var g := SectionGroup(b[n], items, infos);
      calc {
        LoadedSections(a + b, items, infos);
      == { assert a + b == (a + b[..n]) + [b[n]]; LoadedSectionsSnoc(a + b[..n], b[n], items, infos); }
        LoadedSections(a + b[..n], items, infos) + g;
      == { LoadedSectionsAppend(a, b[..n], items, infos); }
        LoadedSections(a, items, infos) + LoadedSections(b[..n], items, infos) + g;
      == { AppendAssoc(LoadedSections(a, items, infos), LoadedSections(b[..n], items, infos), g); }
        LoadedSections(a, items, infos) + (LoadedSections(b[..n], items, infos) + g);
      == { assert b == b[..n] + [b[n]]; LoadedSectionsSnoc(b[..n], b[n], items, infos); }
        LoadedSections(a, items, infos) + LoadedSections(b, items, infos);
      }
    }
  }

  /** A single section yields its group exactly when some item belongs to it. */
  lemma LoadedSingleSection(s: SectionRecord, items: seq<ItemRecord>, infos: seq<InfoRecord>)
    ensures (exists x :: x in items && x.sectionId == s.id) ==>
              LoadedSections([s], items, infos) == [CardSection(OrEmpty(s.name), CardsOf(items, s, infos))]
    ensures (forall x :: x in items ==> x.sectionId != s.id) ==> LoadedSections([s], items, infos) == []
  {
    assert [s][..0] == [];
    CardsOfMembership(items, s, infos);
  }

  /** `load_items`. */
  method LoadItems(sections: seq<SectionRecord>, items: seq<ItemRecord>, infos: seq<InfoRecord>)
    returns (r: seq<CardSection>)
    ensures r == LoadedSections(sections, items, infos)
  {
    r := [];
    for i := 0 to |sections|
      invariant r == LoadedSections(sections[..i], items, infos)
    {
      var s := sections[i];
      var sectionItems: seq<Card> := [];
      for j := 0 to |items|
        invariant sectionItems == CardsOf(items[..j], s, infos)
      {
        var x := items[j];
        assert items[..j + 1][..j] == items[..j];
        if x.sectionId == s.id {
          var lines := GetAllInfos(InfosOf(infos, x.code));
          sectionItems := sectionItems + [Card(OrEmpty(x.code), OrEmpty(x.description), OrEmpty(s.name), lines)];
        }
      }
      assert items[..|items|] == items;
      assert sections[..i + 1][..i] == sections[..i];
      if sectionItems != [] {
        r := r + [CardSection(OrEmpty(s.name), sectionItems)];
      }
    }
    assert sections[..|sections|] == sections;
  }

  // ---------------------------------------------------------------------------------
  // Pages
  // ---------------------------------------------------------------------------------

  /** Up to three values followed by `None` up to three slots. */
  function Pad<T>(xs: seq<T>): (r: seq<Option<T>>)
    requires |xs| <= 3
    ensures |r| == 3
  {
    seq(3, k => if 0 <= k < |xs| then Some(xs[k]) else None)
  }

  /**
   * The comprehension that cuts a list into groups of three, the last one padded with
   * `None`; the PDF applies it twice, items into rows and rows into pages.
   */
  function Chunk3<T>(xs: seq<T>): (r: seq<seq<Option<T>>>)
    ensures |r| == (|xs| + 2) / 3
    ensures forall k :: 0 <= k < |r| ==> |r[k]| == 3
    decreases |xs|
  {
    if xs == [] then []
    else
      var m := if |xs| >= 3 then 3 else |xs|;
      [Pad(xs[..m])] + Chunk3(xs[m..])
  }

  /** The values present in a row of slots, in order. */
  function Present<T>(row: seq<Option<T>>): seq<T> {
    if row == [] then []
    else Values(row[0]) + Present(row[1..])
  }

  /** The values present in consecutive rows of slots. */
  function Flatten<T>(rows: seq<seq<Option<T>>>): seq<T> {
    if rows == [] then [] else Present(rows[0]) + Flatten(rows[1..])
  }

  function Values<T>(o: Option<T>): seq<T> {
    if o.Some? then [o.value] else []
  }

  lemma Present3<T>(a: Option<T>, b: Option<T>, c: Option<T>)
    ensures Present([a, b, c]) == Values(a) + Values(b) + Values(c)
  {
    assert [a, b, c][1..] == [b, c] && [b, c][1..] == [c] && [c][1..] == [];
    assert Present([c]) == Values(c);
    assert Present([b, c]) == Values(b) + Values(c);
  }

  lemma PresentPad<T>(xs: seq<T>)
    requires |xs| <= 3
    ensures Present(Pad(xs)) == xs
  {
    var p := Pad(xs);
    assert p == [p[0], p[1], p[2]];
    assert forall k :: 0 <= k < 3 ==> p[k] == if k < |xs| then Some(xs[k]) else None;
    Present3(p[0], p[1], p[2]);
    if |xs| == 3 {
      assert xs == [xs[0], xs[1], xs[2]];
    } else if |xs| == 2 {
      assert xs == [xs[0], xs[1]];
    } else if |xs| == 1 {
      assert xs == [xs[0]];
    }
  }

  /** Reading the groups back in order gives the list that was cut. */
  lemma {:induction false} Chunk3ReadBack<T>(xs: seq<T>)
    ensures Flatten(Chunk3(xs)) == xs
    decreases |xs|
  {
    if xs != [] {
      var m := if |xs| >= 3 then 3 else |xs|;
      var c := Chunk3(xs);
      var rest := Chunk3(xs[m..]);
      assert c == [Pad(xs[..m])] + rest;
      assert c[0] == Pad(xs[..m]) && c[1..] == rest;
      assert Flatten(c) == Present(c[0]) + Flatten(rest);
      PresentPad(xs[..m]);
      Chunk3ReadBack(xs[m..]);
      assert xs == xs[..m] + xs[m..];
    }
  }

  /** A section's pages: rows of three card slots, three row slots to a page. */
  function Pages<T>(items: seq<T>): seq<seq<Option<seq<Option<T>>>>> {
    Chunk3(Chunk3(items))
  }

  lemma CeilThirdOfThird(n: nat)
    ensures ((n + 2) / 3 + 2) / 3 == (n + 8) / 9
  {
    var q, r := n / 9, n % 9;
    assert n == 9 * q + r;
    assert (n + 2) / 3 == 3 * q + (r + 2) / 3;
    assert ((n + 2) / 3 + 2) / 3 == q + ((r + 2) / 3 + 2) / 3;
    assert (n + 8) / 9 == q + (r + 8) / 9;
  }

  /**
   * A section of n items takes ceil(n/9) pages, every page has three row slots and every
   * present row three card slots, and reading the pages in order gives the items back.
   */
  lemma PagesHoldItems<T>(items: seq<T>)
    ensures |Pages(items)| == (|items| + 8) / 9
    ensures forall p :: 0 <= p < |Pages(items)| ==> |Pages(items)[p]| == 3
    ensures forall p, k :: 0 <= p < |Pages(items)| && 0 <= k < 3 && Pages(items)[p][k].Some? ==>
              |Pages(items)[p][k].value| == 3
    ensures Flatten(Flatten(Pages(items))) == items
  {
    CeilThirdOfThird(|items|);
    Chunk3ReadBack(items);
    Chunk3ReadBack(Chunk3(items));
    var rows := Chunk3(items);
    forall p, k | 0 <= p < |Pages(items)| && 0 <= k < 3 && Pages(items)[p][k].Some?
      ensures |Pages(items)[p][k].value| == 3
    {
      PresentSlotsAreRows(rows, p, k);
    }
  }

  /** Each slot of a page of rows holds one of the rows. */
  lemma {:induction false} PresentSlotsAreRows<T>(rows: seq<seq<T>>, p: nat, k: nat)
    requires p < |Chunk3(rows)| && k < 3 && Chunk3(rows)[p][k].Some?
    ensures Chunk3(rows)[p][k].value in rows
    decreases |rows|
  {
    var m := if |rows| >= 3 then 3 else |rows|;
    if p > 0 {
      assert Chunk3(rows)[p] == Chunk3(rows[m..])[p - 1];
      PresentSlotsAreRows(rows[m..], p - 1, k);
    } else {
      assert Chunk3(rows)[0] == Pad(rows[..m]);
    }
  }

  /** The grid pages of all sections: ceil(n/9) for a section of n cards. */
  function GridPages(sections: seq<CardSection>): nat {
    if sections == [] then 0
    else GridPages(sections[..|sections| - 1]) + (|sections[|sections| - 1].items| + 8) / 9
  }

  /**
   * The page counter of `render_pdf`: the cover is page 1, and each grid page of each
   * section with items adds one.
   */
  method CountPages(sections: seq<CardSection>) returns (pageNumber: nat)
    ensures pageNumber == 1 + GridPages(sections)
  {
    pageNumber := 1;
    for i := 0 to |sections|
      invariant pageNumber == 1 + GridPages(sections[..i])
    {
      var items := sections[i].items;
      assert sections[..i + 1][..i] == sections[..i];
      if items != [] {
        var pages := Pages(items);
        PagesHoldItems(items);
        for p := 0 to |pages|
          invariant pageNumber == 1 + GridPages(sections[..i]) + p
        {
          pageNumber := pageNumber + 1;
        }
      }
    }
    assert sections[..|sections|] == sections;
  }

  // ---------------------------------------------------------------------------------
  // Wrapping text
  // ---------------------------------------------------------------------------------

  /** The lines a card actually prints: the non-empty ones. */
  function NonEmpty(lines: seq<string>): seq<string> {
    if lines == [] then []
    else NonEmpty(lines[..|lines| - 1]) + (if lines[|lines| - 1] != "" then [lines[|lines| - 1]] else [])
  }

  lemma NonEmptySnoc(lines: seq<string>, l: string)
    ensures NonEmpty(lines + [l]) == NonEmpty(lines) + (if l != "" then [l] else [])
  {
    assert (lines + [l])[..|lines|] == lines;
  }

  /** The text splits into words with no empty one: no leading, trailing or doubled space. */
  predicate NoEmptyWords(text: string) {
    var words := Split(text, ' ');
    forall k :: 0 <= k < |words| ==> words[k] != ""
  }

  /**
   * The state of the wrapping loop after the first `i` words, for words none of which is
   * empty: nothing before the first word; afterwards a non-empty current line, the
   * printed lines and the current one joined give the words read so far, and only the
   * first finished line can be empty, exactly when the first word was over the limit.
   */
  ghost predicate Wrapped(words: seq<string>, i: nat, result: seq<string>, current: string, limit: nat)
    requires i <= |words|
  {
    && (i == 0 ==> result == [] && current == "")
    && (i > 0 ==> current != "" && Join(NonEmpty(result) + [current], ' ') == Join(words[..i], ' ')
                  && (|result| > 0 && result[0] == "" <==> |words[0]| > limit))
    && (forall k :: 0 < k < |result| ==> result[k] != "")
  }

  /** The first word of a line: the text before its first space. */
  function FirstWord(line: string): (w: string)
    ensures |w| <= |line| && ' ' !in w
  {
    Split(line, ' ')[0]
  }

  /** Adding a space and more words after a line leaves its first word as it was. */
  lemma FirstWordExtend(line: string, word: string)
    ensures FirstWord(line + " " + word) == FirstWord(line)
  {
    var ext := line + " " + word;
    assert ext[|line|] == ' ';
    assert ext[..|line|] == line;
    if ' ' in line {
      var j := IndexOf(line, ' ');
      assert ext[..j] == line[..j];
    }
  }

  /**
   * The wrap is greedy: a finished, non-empty line could not have taken the first word of
   * the line after it, nor, for the last finished line, that of the line in progress.
   */
  predicate Greedy(result: seq<string>, current: string, limit: nat) {
    && (forall k :: 0 <= k < |result| - 1 && result[k] != "" ==> |result[k]| + 1 + |FirstWord(result[k + 1])| > limit)
    && (|result| > 0 && result[|result| - 1] != "" ==> |result[|result| - 1]| + 1 + |FirstWord(current)| > limit)
  }

  /** Finishing the current line keeps the wrap greedy when the next word did not fit. */
  lemma GreedyBreak(result: seq<string>, current: string, word: string, limit: nat)
    requires Greedy(result, current, limit) && ' ' !in word
    requires |current| + |word| + (if current != "" then 1 else 0) > limit
    ensures Greedy(result + [current], word, limit)
  {
    assert FirstWord(word) == word;
  }

  /** Extending the line in progress keeps its first word, so the wrap stays greedy. */
  lemma GreedyExtend(result: seq<string>, current: string, word: string, limit: nat)
    requires Greedy(result, current, limit)
    ensures Greedy(result, current + " " + word, limit)
  {
    FirstWordExtend(current, word);
  }

  /** Printing the line in progress, if it has anything in it, ends a greedy wrap. */
  lemma GreedyFinish(result: seq<string>, current: string, limit: nat)
    requires Greedy(result, current, limit)
    ensures var lines := if current != "" then result + [current] else result;
            forall k :: 0 <= k < |lines| - 1 && lines[k] != "" ==> |lines[k]| + 1 + |FirstWord(lines[k + 1])| > limit
  {
  }

  /** The next word does not fit: the current line is finished and the word starts the next one. */
  lemma WrapBreak(words: seq<string>, i: nat, result: seq<string>, current: string, limit: nat)
    requires i < |words| && words[i] != ""
    requires Wrapped(words, i, result, current, limit)
    requires |current| + |words[i]| + (if current != "" then 1 else 0) > limit
    ensures Wrapped(words, i + 1, result + [current], words[i], limit)
  {
    var word := words[i];
    NonEmptySnoc(result, current);
    assert words[..i + 1] == words[..i] + [word];
    if i > 0 {
      JoinSnoc(words[..i], word, ' ');
      JoinSnoc(NonEmpty(result) + [current], word, ' ');
    } else {
      assert NonEmpty(result + [current]) == [];
    }
  }

  /** The next word fits after the current, non-empty line. */
  lemma WrapExtend(words: seq<string>, i: nat, result: seq<string>, current: string, limit: nat)
    requires 0 < i < |words|
    requires Wrapped(words, i, result, current, limit)
    ensures Wrapped(words, i + 1, result, current + " " + words[i], limit)
  {
    var word := words[i];
    assert words[..i + 1] == words[..i] + [word];
    JoinSnoc(words[..i], word, ' ');
    assert current + " " + word == current + [' '] + word;
    JoinExtendLast(NonEmpty(result), current, word, ' ');
  }

  /** The first word fits: it starts the first line. */
  lemma WrapStart(words: seq<string>, result: seq<string>, limit: nat)
    requires 0 < |words| && words[0] != "" && |words[0]| <= limit
    requires Wrapped(words, 0, result, "", limit)
    ensures Wrapped(words, 1, result, words[0], limit)
  {
    assert words[..1] == [words[0]];
  }

  /**
   * `quebra_linha`: greedy wrapping of the words at `limit` characters. A line is longer
   * than the limit only when it is a single word. For text without empty words, the
   * printed lines joined with single spaces give the text back, and only the first line
   * can be empty, which it is exactly when the first word is over the limit.
   */
  method WrapWords(text: string, limit: nat) returns (lines: seq<string>)
    ensures forall k :: 0 <= k < |lines| ==> |lines[k]| <= limit || ' ' !in lines[k]
    ensures NoEmptyWords(text) ==> Join(NonEmpty(lines), ' ') == text
    ensures NoEmptyWords(text) ==> forall k :: 0 < k < |lines| ==> lines[k] != ""
    ensures NoEmptyWords(text) ==> (|lines| > 0 && lines[0] == "" <==> |Split(text, ' ')[0]| > limit)
    ensures forall k :: 0 <= k < |lines| - 1 && lines[k] != "" ==> |lines[k]| + 1 + |FirstWord(lines[k + 1])| > limit
  {
    var words := Split(text, ' ');
    ghost var plain := NoEmptyWords(text);
    var current := "";
    var result: seq<string> := [];
    for i := 0 to |words|
      invariant WrapState(words, plain, i, result, current, limit)
    {
      var word := words[i];
      if |current| + |word| + (if current != "" then 1 else 0) > limit {
        StepBreak(words, plain, i, result, current, limit);
        result := result + [current];
        current := word;
      } else if current != "" {
        StepExtend(words, plain, i, result, current, limit);
        current := current + " " + word;
      } else {
        StepStart(words, plain, i, result, limit);
        current := word;
      }
    }
    if plain {
      WrapFinish(text, result, current, limit);
    }
    GreedyFinish(result, current, limit);
    if current != "" {
      result := result + [current];
    }
    lines := result;
  }

  /**
   * The loop invariant of `WrapWords` after the first `i` words: only single words overrun
   * the limit, the wrap is greedy, and for text without empty words the lines and the line
   * in progress hold exactly those words.
   */
  ghost predicate WrapState(words: seq<string>, plain: bool, i: nat, result: seq<string>, current: string, limit: nat)
    requires i <= |words|
  {
    && (forall k :: 0 <= k < |result| ==> |result[k]| <= limit || ' ' !in result[k])
    && (|current| <= limit || ' ' !in current)
    && (plain ==> Wrapped(words, i, result, current, limit))
    && Greedy(result, current, limit)
  }

  /** A word that does not fit finishes the line in progress and starts the next one. */
  lemma StepBreak(words: seq<string>, plain: bool, i: nat, result: seq<string>, current: string, limit: nat)
    requires i < |words| && ' ' !in words[i] && (plain ==> words[i] != "")
    requires WrapState(words, plain, i, result, current, limit)
    requires |current| + |words[i]| + (if current != "" then 1 else 0) > limit
    ensures WrapState(words, plain, i + 1, result + [current], words[i], limit)
  {
    if plain {
      WrapBreak(words, i, result, current, limit);
    }
    GreedyBreak(result, current, words[i], limit);
  }

  /** A word that fits is added to the line in progress after a space. */
  lemma StepExtend(words: seq<string>, plain: bool, i: nat, result: seq<string>, current: string, limit: nat)
    requires i < |words| && current != ""
    requires WrapState(words, plain, i, result, current, limit)
    requires |current| + |words[i]| + 1 <= limit
    ensures WrapState(words, plain, i + 1, result, current + " " + words[i], limit)
  {
    if plain {
      WrapExtend(words, i, result, current, limit);
    }
    GreedyExtend(result, current, words[i], limit);
  }

  /** A word that fits on an empty line in progress starts it. */
  lemma StepStart(words: seq<string>, plain: bool, i: nat, result: seq<string>, limit: nat)
    requires i < |words| && ' ' !in words[i] && (plain ==> words[i] != "")
    requires WrapState(words, plain, i, result, "", limit)
    requires |words[i]| <= limit
    ensures WrapState(words, plain, i + 1, result, words[i], limit)
  {
    if plain {
      WrapStart(words, result, limit);
    }
  }

  /** After the last word, the line in progress is printed if it has anything in it. */
  lemma WrapFinish(text: string, result: seq<string>, current: string, limit: nat)
    requires NoEmptyWords(text)
    requires Wrapped(Split(text, ' '), |Split(text, ' ')|, result, current, limit)
    ensures var lines := if current != "" then result + [current] else result;
            && Join(NonEmpty(lines), ' ') == text
            && (forall k :: 0 < k < |lines| ==> lines[k] != "")
            && (|lines| > 0 && lines[0] == "" <==> |Split(text, ' ')[0]| > limit)
  {
    var words := Split(text, ' ');
    if current != "" {
      NonEmptySnoc(result, current);
    }
    JoinSplit(text, ' ');
    assert words[..|words|] == words;
  }

  // ---------------------------------------------------------------------------------
  // Phone, palette, logo
  // ---------------------------------------------------------------------------------

  /** `re.sub(r'\D', '', s)`: the digits of `s`, in order. */
  function Digits(s: string): (d: string)
    ensures forall i :: 0 <= i < |d| ==> IsAsciiDigit(d[i])
    ensures |d| <= |s|
  {
    if s == [] then [] else (if IsAsciiDigit(s[0]) then [s[0]] else []) + Digits(s[1..])
  }

  lemma {:induction false} DigitsAppend(a: string, b: string)
    ensures Digits(a + b) == Digits(a) + Digits(b)
  {
    if a != [] {
      assert (a + b)[0] == a[0] && (a + b)[1..] == a[1..] + b;
      DigitsAppend(a[1..], b);
    } else {
      assert a + b == b;
    }
  }

  lemma {:induction false} DigitsOfDigits(d: string)
    requires forall i :: 0 <= i < |d| ==> IsAsciiDigit(d[i])
    ensures Digits(d) == d
  {
    if d != [] {
      DigitsOfDigits(d[1..]);
    }
  }

  /** `s` follows `mask`, where '#' stands for a digit and every other character for itself. */
  predicate Fits(s: string, mask: string) {
    |s| == |mask| && forall i :: 0 <= i < |s| ==> if mask[i] == '#' then IsAsciiDigit(s[i]) else s[i] == mask[i]
  }

  /** "(DD) " + the middle digits + "-" + the last four digits. */
  function Formatted(d: string): (s: string)
    requires |d| >= 6
  {
    "(" + d[..2] + ") " + d[2..|d| - 4] + "-" + d[|d| - 4..]
  }

  /** Formatting keeps exactly the digits. */
  lemma FormattedDigits(d: string)
    requires |d| >= 6 && forall i :: 0 <= i < |d| ==> IsAsciiDigit(d[i])
    ensures Digits(Formatted(d)) == d
  {
    var split := |d| - 4;
    var a, b, c := d[..2], d[2..split], d[split..];
    calc {
      Digits(Formatted(d));
    == { FormattedPieces(a, b, c); FormattedShape(a, b, c); }
      Digits(a) + Digits(b) + Digits(c);
    == { DigitsOfDigits(a); DigitsOfDigits(b); DigitsOfDigits(c); }
      a + b + c;
    ==
      d;
    }
  }

  /** The punctuation of the formatted text holds no digit. */
  lemma FormattedPieces(a: string, b: string, c: string)
    ensures Digits(['('] + (a + [')'] + ([' '] + (b + ['-'] + c)))) == Digits(a) + Digits(b) + Digits(c)
  {
    var t2 := [' '] + (b + ['-'] + c);
    HeadDigits(a, t2);
    TailDigits(b, c);
    AppendAssoc(Digits(a), Digits(b), Digits(c));
  }

  lemma HeadDigits(a: string, t: string)
    ensures Digits(['('] + (a + [')'] + t)) == Digits(a) + Digits(t)
  {
    var t3 := a + [')'] + t;
    DigitsSkip(a, ')', t);
    DigitsSkip([], '(', t3);
    assert [] + ['('] + t3 == ['('] + t3;
  }

  lemma TailDigits(b: string, c: string)
    ensures Digits([' '] + (b + ['-'] + c)) == Digits(b) + Digits(c)
  {
    var t1 := b + ['-'] + c;
    DigitsSkip(b, '-', c);
    DigitsSkip([], ' ', t1);
    assert [] + [' '] + t1 == [' '] + t1;
  }

  lemma FormattedShape(a: string, b: string, c: string)
    ensures "(" + a + ") " + b + "-" + c == ['('] + (a + [')'] + ([' '] + (b + ['-'] + c)))
  {
    assert ") " == [')'] + [' '];
  }

  /** A character that is not a digit drops out. */
  lemma DigitsSkip(x: string, ch: char, y: string)
    requires !IsAsciiDigit(ch)
    ensures Digits(x + [ch] + y) == Digits(x) + Digits(y)
  {
    calc {
      Digits(x + [ch] + y);
    == { DigitsAppend(x + [ch], y); }
      Digits(x + [ch]) + Digits(y);
    == { DigitsAppend(x, [ch]); NonDigitDropped(ch); }
      Digits(x) + [] + Digits(y);
    == { assert Digits(x) + [] == Digits(x); }
      Digits(x) + Digits(y);
    }
  }

  lemma NonDigitDropped(ch: char)
    requires !IsAsciiDigit(ch)
    ensures Digits([ch]) == []
  {
    assert [ch][1..] == [];
  }

  /** Ten digits fit "(##) ####-####" and eleven "(##) #####-####". */
  lemma FormattedFits(d: string)
    requires |d| == 10 || |d| == 11
    requires forall i :: 0 <= i < |d| ==> IsAsciiDigit(d[i])
    ensures |d| == 10 ==> Fits(Formatted(d), "(##) ####-####")
    ensures |d| == 11 ==> Fits(Formatted(d), "(##) #####-####")
  {
    var f := Formatted(d);
    var split := |d| - 4;
    assert |f| == |d| + 4;
    forall i | 0 <= i < |f|
      ensures f[i] == (if i == 0 then '(' else if i == 3 then ')' else if i == 4 then ' ' else if i == split + 3 then '-'
                       else d[if i < 3 then i - 1 else if i < split + 3 then i - 3 else i - 4])
    {
    }
  }

  /**
   * The phone text of the header and the cover, or `None` when nothing is printed: ten
   * digits as "(DD) DDDD-DDDD", eleven as "(DD) DDDDD-DDDD", more printed bare, fewer not
   * printed at all.
   */
  function PhoneText(phone: string): (r: Option<string>)
    ensures r.Some? <==> |Digits(phone)| >= 10
    ensures r.Some? ==> Digits(r.value) == Digits(phone)
    ensures |Digits(phone)| == 10 ==> Fits(r.value, "(##) ####-####")
    ensures |Digits(phone)| == 11 ==> Fits(r.value, "(##) #####-####")
    ensures |Digits(phone)| > 11 ==> r.value == Digits(phone)
  {
    var d := Digits(phone);
    if |d| < 10 then None
    else if |d| <= 11 then
      FormattedDigits(d);
      FormattedFits(d);
      Some(Formatted(d))
    else
      DigitsOfDigits(d);
      Some(d)
  }

  /** The palette number the PDF uses: the position of the id among the ten, else 0. */
  function PalletIndex(pallet: Field): (r: nat)
    ensures r < |Settings.ValidPalettes|
    ensures pallet.Some? && pallet.value in Settings.ValidPalettes ==> Settings.ValidPalettes[r] == pallet.value
    ensures !(pallet.Some? && pallet.value in Settings.ValidPalettes) ==> r == 0
    ensures forall i :: 0 <= i < |Settings.ValidPalettes| && pallet == Some(Settings.ValidPalettes[i]) ==> r == i
  {
    var name := if pallet.Some? then pallet.value else "classic";
    if name == "classic" then 0
    else if name == "modern" then 1
    else if name == "luxury" then 2
    else if name == "rose_gold" then 3
    else if name == "white_gold" then 4
    else if name == "diamond" then 5
    else if name == "emerald" then 6
    else if name == "ruby" then 7
    else if name == "sapphire" then 8
    else if name == "vintage" then 9
    else 0
  }

  /** A palette the settings would store is printed with its own colours. */
  lemma SettingsPaletteDrawn(p: string)
    ensures Settings.ValidPalettes[PalletIndex(Some(Settings.ValidPalette(p)))] == Settings.ValidPalette(p)
    ensures p !in Settings.ValidPalettes ==> PalletIndex(Some(Settings.ValidPalette(p))) == PalletIndex(Some(p))
  {
  }

  /** The logo `get_logo` finds. */
  datatype Logo = EncodedLogo(text: string) | BlobLogo(bytes: seq<int>)

  /** `get_logo`: a non-empty `image_base64` first, then a non-empty `image_blob`, else none. */
  function GetLogo(imageBase64: Field, imageBlob: Option<seq<int>>): (r: Option<Logo>)
    ensures r.None? <==> OrEmpty(imageBase64) == "" && (imageBlob.None? || imageBlob.value == [])
    ensures OrEmpty(imageBase64) != "" ==> r == Some(EncodedLogo(imageBase64.value))
    ensures r.Some? && r.value.BlobLogo? ==> OrEmpty(imageBase64) == "" && imageBlob == Some(r.value.bytes)
    ensures OrEmpty(imageBase64) == "" && imageBlob.Some? && imageBlob.value != [] ==> r == Some(BlobLogo(imageBlob.value))
  {
    if OrEmpty(imageBase64) != "" then Some(EncodedLogo(imageBase64.value))
    else if imageBlob.Some? && imageBlob.value != [] then Some(BlobLogo(imageBlob.value))
    else None
  }

  const DataImagePrefix := "data:image"

  /**
   * The base64 text of an image: for a data URL, `split(",")[1]`, the text between its
   * first comma and the next one (or the end); the text itself otherwise; `None` for a
   * data URL without a comma, whose drawing fails.
   */
  function ImagePayload(data: string): (r: Option<string>)
    ensures !StartsWith(data, DataImagePrefix) ==> r == Some(data)
    ensures StartsWith(data, DataImagePrefix) ==> (r.Some? <==> ',' in data)
    ensures StartsWith(data, DataImagePrefix) && r.Some? ==>
              var start := IndexOf(data, ',') + 1;
              var end := start + |r.value|;
              && ',' !in r.value && end <= |data| && data[start..end] == r.value
              && (end == |data| || data[end] == ',')
  {
    if StartsWith(data, DataImagePrefix) then
      var parts := Split(data, ',');
      if |parts| >= 2 then
        var start := IndexOf(data, ',') + 1;
        var rest := data[start..];
        assert parts[1] == Split(rest, ',')[0];
        assert ',' in rest ==> parts[1] == rest[..IndexOf(rest, ',')];
        assert ',' !in rest ==> parts[1] == rest;
        Some(parts[1])
      else None
    else Some(data)
  }

  /** `'=' * n`. */
  function Equals(n: nat): (r: string)
    ensures |r| == n && forall i :: 0 <= i < n ==> r[i] == '='
  {
    if n == 0 then "" else Equals(n - 1) + "="
  }

  /** The padding fix: '=' appended up to the next multiple of four characters. */
  function FixPadding(s: string): (r: string)
    ensures |r| % 4 == 0
    ensures s <= r && |r| - |s| < 4
    ensures forall i :: |s| <= i < |r| ==> r[i] == '='
  {
    var missing := |s| % 4;
    if missing != 0 then s + Equals(4 - missing) else s
  }

  /** The fix is the shortest such padding, and a second fix changes nothing. */
  lemma FixPaddingShortest(s: string, r: string)
    requires s <= r && |r| % 4 == 0
    ensures |FixPadding(s)| <= |r|
    ensures FixPadding(FixPadding(s)) == FixPadding(s)
  {
  }
}
