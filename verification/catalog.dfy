/**
 * Catalog export and import. A catalog file holds the settings, the sections, the items
 * and the items' infos. Export gathers them section by section; import merges a file into
 * the store, optionally after emptying it, and skips whatever the store already has.
 *
 * The store is three tables kept in insertion order, with the constraints that matter
 * here: section ids and names are unique, item ids and codes are unique, info ids are
 * unique. Foreign keys are not enforced, so an item may name a section that does not exist.
 */
module Catalog {
  import opened Wrappers
  import opened Text

  datatype Section = Section(id: string, name: string)
  datatype Item = Item(id: string, code: string, description: string, sectionId: string, imagePath: string)
  datatype Info = Info(id: string, itemCode: string, name: string, details: string)

  const CatalogVersion := "1.0.0"

  /** The catalog file's document; `S` is the settings record it carries along unchanged. */
  datatype CatalogData<S> = CatalogData(version: string, createdAt: string, settings: S,
                                        sections: seq<Section>, items: seq<Item>, infos: seq<Info>)

  /** The catalog file as the import finds it. */
  datatype CatalogFile<S> =
    | Missing
    | Unreadable(readError: string)
    | Malformed(parseError: string)
    | Parsed(catalog: CatalogData<S>)

  datatype Table = InfosTable | ItemsTable | SectionsTable

  /**
   * A database failure other than a constraint violation, with the driver's text: one of
   * the three deletions, or the `step`-th section lookup of the import (one per file
   * section, then one per file item).
   */
  datatype Fault = NoFault | DeleteFails(table: Table, text: string) | LookupFails(step: nat, text: string)

  const NotFoundError := "Arquivo não encontrado"
  const ReadPrefix := "Erro ao ler arquivo: "
  const ParsePrefix := "Erro ao ler dados do catálogo: "
  const ClearInfosPrefix := "Erro ao limpar informações: "
  const ClearItemsPrefix := "Erro ao limpar itens: "
  const ClearSectionsPrefix := "Erro ao limpar seções: "
  const SectionLookupPrefix := "Erro ao verificar seção: "
  const ItemSectionLookupPrefix := "Erro ao verificar seção do item: "
  const SaveFilePrefix := "Erro ao salvar arquivo: "

  /** The three tables' rows. */
  datatype Tables = Tables(sections: seq<Section>, items: seq<Item>, infos: seq<Info>)

  /** What an import or a clear returns, with the tables it leaves. */
  datatype Outcome = Outcome(reply: Result<Unit, string>, tables: Tables)

  function SectionIds(ss: seq<Section>): set<string> { set s | s in ss :: s.id }
  function SectionNames(ss: seq<Section>): set<string> { set s | s in ss :: s.name }
  function Codes(xs: seq<Item>): set<string> { set x | x in xs :: x.code }
  function ItemIds(xs: seq<Item>): set<string> { set x | x in xs :: x.id }
  function InfoIds(ys: seq<Info>): set<string> { set y | y in ys :: y.id }

  lemma SectionsSnoc(ss: seq<Section>, s: Section)
    ensures SectionNames(ss + [s]) == SectionNames(ss) + {s.name}
    ensures SectionIds(ss + [s]) == SectionIds(ss) + {s.id}
  {
    assert forall t :: t in ss + [s] <==> t in ss || t == s;
  }

  lemma ItemsSnoc(xs: seq<Item>, x: Item)
    ensures Codes(xs + [x]) == Codes(xs) + {x.code}
    ensures ItemIds(xs + [x]) == ItemIds(xs) + {x.id}
  {
    assert forall t :: t in xs + [x] <==> t in xs || t == x;
  }

  lemma InfosSnoc(ys: seq<Info>, y: Info)
    ensures InfoIds(ys + [y]) == InfoIds(ys) + {y.id}
  {
    assert forall t :: t in ys + [y] <==> t in ys || t == y;
  }

  /** The first `n + 1` elements are the first `n` and the `n`-th. */
  lemma PrefixSnoc<T>(s: seq<T>, n: nat)
    requires n < |s|
    ensures s[..n + 1] == s[..n] + [s[n]]
    ensures forall v :: v in s[..n] ==> v in s[..n + 1]
  {
  }

  predicate UniqueSections(ss: seq<Section>) {
    forall i, j :: 0 <= i < j < |ss| ==> ss[i].id != ss[j].id && ss[i].name != ss[j].name
  }

  predicate UniqueItems(xs: seq<Item>) {
    forall i, j :: 0 <= i < j < |xs| ==> xs[i].id != xs[j].id && xs[i].code != xs[j].code
  }

  predicate UniqueInfos(ys: seq<Info>) {
    forall i, j :: 0 <= i < j < |ys| ==> ys[i].id != ys[j].id
  }

  /** The tables' PRIMARY KEY and UNIQUE constraints hold. */
  predicate Constrained(t: Tables) {
    UniqueSections(t.sections) && UniqueItems(t.items) && UniqueInfos(t.infos)
  }

  /** Newly generated ids: none repeats, and none is already in use. */
  predicate Fresh(ids: seq<string>, used: set<string>) {
    Distinct(ids) && forall k :: 0 <= k < |ids| ==> ids[k] !in used
  }

  /** `get_section`: the section with this id. */
  function FindById(ss: seq<Section>, id: string): (r: Option<Section>)
    ensures r.None? <==> id !in SectionIds(ss)
    ensures r.Some? ==> r.value in ss && r.value.id == id
  {
    if ss == [] then None
    else if ss[0].id == id then Some(ss[0])
    else
      assert SectionIds(ss) == {ss[0].id} + SectionIds(ss[1..]) by {
        assert ss == [ss[0]] + ss[1..];
      }
      FindById(ss[1..], id)
  }

  /** `get_section_by_name`: the section with this name. */
  function FindByName(ss: seq<Section>, name: string): (r: Option<Section>)
    ensures r.None? <==> name !in SectionNames(ss)
    ensures r.Some? ==> r.value in ss && r.value.name == name
  {
    if ss == [] then None
    else if ss[0].name == name then Some(ss[0])
    else
      assert SectionNames(ss) == {ss[0].name} + SectionNames(ss[1..]) by {
        assert ss == [ss[0]] + ss[1..];
      }
      FindByName(ss[1..], name)
  }

  // ---------------------------------------------------------------------------------
  // Emptying the store
  // ---------------------------------------------------------------------------------

  /**
   * `clear_database`: deletes the infos, then the items, then the sections, stopping at
   * the first deletion that fails and keeping what was already deleted.
   */
  function ClearOutcome(t: Tables, fault: Fault): (o: Outcome)
    ensures o.reply.Ok? <==> !fault.DeleteFails?
    ensures o.reply.Ok? ==> o.tables == Tables([], [], [])
    ensures o.tables.sections in {t.sections, []} && o.tables.items in {t.items, []} && o.tables.infos in {t.infos, []}
    ensures o.tables.sections != t.sections ==> o.tables.items == [] && o.tables.infos == []
    ensures o.tables.items != t.items ==> o.tables.infos == []
    ensures Constrained(t) ==> Constrained(o.tables)
  {
    if fault.DeleteFails? && fault.table == InfosTable then
      Outcome(Err(ClearInfosPrefix + fault.text), t)
    else if fault.DeleteFails? && fault.table == ItemsTable then
      Outcome(Err(ClearItemsPrefix + fault.text), t.(infos := []))
    else if fault.DeleteFails? then
      Outcome(Err(ClearSectionsPrefix + fault.text), t.(infos := [], items := []))
    else
      Outcome(Ok(Unit), Tables([], [], []))
  }

  // ---------------------------------------------------------------------------------
  // Merging a file into the store
  // ---------------------------------------------------------------------------------

  /**
   * The sections after the file's sections are merged one by one: a name the store already
   * has is skipped, a new one is inserted under the next generated id (the k-th file
   * section may use `ids[k]`). The file's own section ids are not kept.
   */
  function ImportSections(ss: seq<Section>, incoming: seq<Section>, ids: seq<string>): (r: seq<Section>)
    requires |incoming| <= |ids|
    ensures ss <= r
    ensures |r| <= |ss| + |incoming|
    decreases |incoming|
  {
    if incoming == [] then ss
    else
      var n := |incoming| - 1;
      var prev := ImportSections(ss, incoming[..n], ids);
      if incoming[n].name in SectionNames(prev) then prev
      else prev + [Section(ids[n], incoming[n].name)]
  }

  /**
   * The merged sections' names are the union of the store's and the file's, and every
   * section id is one the store had or one generated for this file.
   */
  lemma {:induction false} ImportSectionsContents(ss: seq<Section>, incoming: seq<Section>, ids: seq<string>)
    requires |incoming| <= |ids|
    ensures var r := ImportSections(ss, incoming, ids);
            && SectionNames(r) == SectionNames(ss) + SectionNames(incoming)
            && forall id :: id in SectionIds(r) ==> id in SectionIds(ss) || id in ids[..|incoming|]
    decreases |incoming|
  {
    if incoming != [] {
      var n := |incoming| - 1;
      var prev := ImportSections(ss, incoming[..n], ids);
      ImportSectionsContents(ss, incoming[..n], ids);
      PrefixSnoc(incoming, n);
      assert incoming[..n + 1] == incoming;
      SectionsSnoc(incoming[..n], incoming[n]);
      PrefixSnoc(ids, n);
      if incoming[n].name !in SectionNames(prev) {
        SectionsSnoc(prev, Section(ids[n], incoming[n].name));
      }
    }
  }

  /** Merging sections keeps section ids and names unique. */
  lemma {:induction false} ImportSectionsUnique(ss: seq<Section>, incoming: seq<Section>, ids: seq<string>)
    requires |incoming| <= |ids|
    requires UniqueSections(ss) && Fresh(ids, SectionIds(ss))
    ensures UniqueSections(ImportSections(ss, incoming, ids))
  {
    if incoming != [] {
      var n := |incoming| - 1;
      var prev := ImportSections(ss, incoming[..n], ids);
      ImportSectionsUnique(ss, incoming[..n], ids);
      ImportSectionsContents(ss, incoming[..n], ids);
      if incoming[n].name !in SectionNames(prev) {
        assert ids[n] !in ids[..n] by {
          forall k | 0 <= k < n ensures ids[..n][k] != ids[n] { }
        }
        assert ids[n] !in SectionIds(prev);
        var r := prev + [Section(ids[n], incoming[n].name)];
        forall i, j | 0 <= i < j < |r|
          ensures r[i].id != r[j].id && r[i].name != r[j].name
        {
          if j == |prev| {
            assert r[i] in prev;
          }
        }
      }
    }
  }

  /** A file whose section names the store already has adds no section. */
  lemma {:induction false} ImportKnownSections(ss: seq<Section>, incoming: seq<Section>, ids: seq<string>)
    requires |incoming| <= |ids|
    requires SectionNames(incoming) <= SectionNames(ss)
    ensures ImportSections(ss, incoming, ids) == ss
  {
    if incoming != [] {
      var n := |incoming| - 1;
      assert incoming[n] in incoming;
      assert SectionNames(incoming[..n]) <= SectionNames(incoming) by {
        forall s | s in incoming[..n] ensures s in incoming { }
      }
      ImportKnownSections(ss, incoming[..n], ids);
    }
  }

  /** The codes of the file's items whose recorded section id is among `sectionIds`. */
  function AcceptedCodes(incoming: seq<Item>, sectionIds: set<string>): set<string> {
    set x | x in incoming && x.sectionId in sectionIds :: x.code
  }

  /**
   * The items after the file's items are merged one by one, as `import_catalog` does it:
   * an item is inserted, under the next generated id, when a section with its recorded
   * section id is in the store and its code is new; a refused insert is skipped.
   */
  function ImportItems(ss: seq<Section>, items: seq<Item>, incoming: seq<Item>, ids: seq<string>): (r: seq<Item>)
    requires |incoming| <= |ids|
    ensures items <= r
    ensures |r| <= |items| + |incoming|
    decreases |incoming|
  {
    if incoming == [] then items
    else
      var n := |incoming| - 1;
      var prev := ImportItems(ss, items, incoming[..n], ids);
      var x := incoming[n];
      if FindById(ss, x.sectionId).Some? && x.code !in Codes(prev) then
        prev + [Item(ids[n], x.code, x.description, x.sectionId, x.imagePath)]
      else prev
  }

  /**
   * The merged items' codes are the store's plus those of the file's items whose recorded
   * section id is in the store; every new item names such a section and has a generated id.
   */
  lemma {:induction false} ImportItemsContents(ss: seq<Section>, items: seq<Item>, incoming: seq<Item>, ids: seq<string>)
    requires |incoming| <= |ids|
    ensures var r := ImportItems(ss, items, incoming, ids);
            && Codes(r) == Codes(items) + AcceptedCodes(incoming, SectionIds(ss))
            && forall i :: |items| <= i < |r| ==> r[i].sectionId in SectionIds(ss) && r[i].id in ids[..|incoming|]
    decreases |incoming|
  {
    if incoming != [] {
      var n := |incoming| - 1;
      var prev := ImportItems(ss, items, incoming[..n], ids);
      var x := incoming[n];
      ImportItemsContents(ss, items, incoming[..n], ids);
      PrefixSnoc(incoming, n);
      assert incoming[..n + 1] == incoming;
      AcceptedSnoc(incoming[..n], x, SectionIds(ss));
      PrefixSnoc(ids, n);
      if FindById(ss, x.sectionId).Some? && x.code !in Codes(prev) {
        ItemsSnoc(prev, Item(ids[n], x.code, x.description, x.sectionId, x.imagePath));
      }
    }
  }

  lemma AcceptedSnoc(xs: seq<Item>, x: Item, sectionIds: set<string>)
    ensures AcceptedCodes(xs + [x], sectionIds)
            == AcceptedCodes(xs, sectionIds) + (if x.sectionId in sectionIds then {x.code} else {})
  {
    assert forall t :: t in xs + [x] <==> t in xs || t == x;
  }

  /** Merging items keeps item ids and codes unique. */
  lemma {:induction false} ImportItemsUnique(ss: seq<Section>, items: seq<Item>, incoming: seq<Item>, ids: seq<string>)
    requires |incoming| <= |ids|
    requires UniqueItems(items) && Fresh(ids, ItemIds(items))
    ensures UniqueItems(ImportItems(ss, items, incoming, ids))
  {
    if incoming != [] {
      var n := |incoming| - 1;
      var prev := ImportItems(ss, items, incoming[..n], ids);
      var x := incoming[n];
      ImportItemsUnique(ss, items, incoming[..n], ids);
      if FindById(ss, x.sectionId).Some? && x.code !in Codes(prev) {
        var y := Item(ids[n], x.code, x.description, x.sectionId, x.imagePath);
        ImportItemsContents(ss, items, incoming[..n], ids);
        FreshAppend(items, prev, ids, n);
        AppendUnique(prev, y);
      }
    }
  }

  /** An item id generated for the `n`-th file item is none of the ids before it. */
  lemma FreshAppend(items: seq<Item>, prev: seq<Item>, ids: seq<string>, n: nat)
    requires n < |ids| && Fresh(ids, ItemIds(items)) && items <= prev
    requires forall i :: |items| <= i < |prev| ==> prev[i].id in ids[..n]
    ensures forall i :: 0 <= i < |prev| ==> prev[i].id != ids[n]
  {
    forall i | 0 <= i < |prev| ensures prev[i].id != ids[n] {
      if i < |items| {
        assert prev[i] == items[i] && items[i] in items;
      } else {
        var k :| 0 <= k < n && ids[..n][k] == prev[i].id;
        assert ids[k] != ids[n];
      }
    }
  }

  /** Appending an item with a new id and a new code keeps ids and codes unique. */
  lemma AppendUnique(xs: seq<Item>, y: Item)
    requires UniqueItems(xs) && y.code !in Codes(xs)
    requires forall i :: 0 <= i < |xs| ==> xs[i].id != y.id
    ensures UniqueItems(xs + [y])
  {
    var r := xs + [y];
    forall i, j | 0 <= i < j < |r|
      ensures r[i].id != r[j].id && r[i].code != r[j].code
    {
      if j == |xs| {
        assert r[i] == xs[i] && xs[i] in xs;
      }
    }
  }

  /** A file whose item codes the store already has adds no item. */
  lemma {:induction false} ImportKnownItems(ss: seq<Section>, items: seq<Item>, incoming: seq<Item>, ids: seq<string>)
    requires |incoming| <= |ids|
    requires Codes(incoming) <= Codes(items)
    ensures ImportItems(ss, items, incoming, ids) == items
  {
    if incoming != [] {
      var n := |incoming| - 1;
      assert incoming[n] in incoming;
      assert Codes(incoming[..n]) <= Codes(incoming) by {
        forall x | x in incoming[..n] ensures x in incoming { }
      }
      ImportKnownItems(ss, items, incoming[..n], ids);
    }
  }

  /**
   * The infos after the file's infos are merged one by one: each is inserted as it is
   * unless its id is taken; whether its item exists is not checked.
   */
  function ImportInfos(infos: seq<Info>, incoming: seq<Info>): (r: seq<Info>)
    ensures infos <= r
    ensures |r| <= |infos| + |incoming|
    decreases |incoming|
  {
    if incoming == [] then infos
    else
      var n := |incoming| - 1;
      var prev := ImportInfos(infos, incoming[..n]);
      var y := incoming[n];
      if y.id in InfoIds(prev) then prev else prev + [y]
  }

  /**
   * The merged infos' ids are the union of the store's and the file's, every new row comes
   * from the file, and unique ids stay unique.
   */
  lemma {:induction false} ImportInfosContents(infos: seq<Info>, incoming: seq<Info>)
    ensures var r := ImportInfos(infos, incoming);
            && InfoIds(r) == InfoIds(infos) + InfoIds(incoming)
            && (forall i :: |infos| <= i < |r| ==> r[i] in incoming)
            && (UniqueInfos(infos) ==> UniqueInfos(r))
    decreases |incoming|
  {
    if incoming != [] {
      var n := |incoming| - 1;
      ImportInfosContents(infos, incoming[..n]);
      assert incoming == incoming[..n] + [incoming[n]];
      ImportInfosContentsStep(infos, incoming[..n], incoming[n]);
    }
  }

  /** One more file row keeps the three facts of `ImportInfosContents`. */
  lemma ImportInfosContentsStep(infos: seq<Info>, pre: seq<Info>, y: Info)
    requires var r := ImportInfos(infos, pre);
             && InfoIds(r) == InfoIds(infos) + InfoIds(pre)
             && (forall i :: |infos| <= i < |r| ==> r[i] in pre)
             && (UniqueInfos(infos) ==> UniqueInfos(r))
    ensures var r := ImportInfos(infos, pre + [y]);
            && InfoIds(r) == InfoIds(infos) + InfoIds(pre + [y])
            && (forall i :: |infos| <= i < |r| ==> r[i] in pre + [y])
            && (UniqueInfos(infos) ==> UniqueInfos(r))
  {
    assert (pre + [y])[..|pre|] == pre;
    InfosMergedSnoc(infos, pre, ImportInfos(infos, pre), y);
  }

  /** The step of `ImportInfosContentsStep` on values: `prev` is the merge so far. */
  lemma InfosMergedSnoc(infos: seq<Info>, pre: seq<Info>, prev: seq<Info>, y: Info)
    requires |infos| <= |prev|
    requires InfoIds(prev) == InfoIds(infos) + InfoIds(pre)
    requires forall i :: |infos| <= i < |prev| ==> prev[i] in pre
    requires UniqueInfos(infos) ==> UniqueInfos(prev)
    ensures var r := if y.id in InfoIds(prev) then prev else prev + [y];
            && InfoIds(r) == InfoIds(infos) + InfoIds(pre + [y])
            && (forall i :: |infos| <= i < |r| ==> r[i] in pre + [y])
            && (UniqueInfos(infos) ==> UniqueInfos(r))
  {
    InfosSnoc(pre, y);
    if y.id !in InfoIds(prev) {
      InfoAppendUnique(prev, y);
    }
  }

  /** Appending a row with an id the rows lack keeps the ids unique. */
  lemma InfoAppendUnique(ys: seq<Info>, y: Info)
    requires y.id !in InfoIds(ys)
    ensures InfoIds(ys + [y]) == InfoIds(ys) + {y.id}
    ensures UniqueInfos(ys) ==> UniqueInfos(ys + [y])
  {
    forall i | 0 <= i < |ys| ensures ys[i].id != y.id {
      assert ys[i] in ys;
    }
    InfosSnoc(ys, y);
  }

  /** A file whose info ids the store already has adds no info. */
  lemma {:induction false} ImportKnownInfos(infos: seq<Info>, incoming: seq<Info>)
    requires InfoIds(incoming) <= InfoIds(infos)
    ensures ImportInfos(infos, incoming) == infos
  {
    if incoming != [] {
      var n := |incoming| - 1;
      assert incoming[n] in incoming;
      assert InfoIds(incoming[..n]) <= InfoIds(incoming) by {
        forall y | y in incoming[..n] ensures y in incoming { }
      }
      ImportKnownInfos(infos, incoming[..n]);
    }
  }

  /** Enough generated ids for every section and item of the file. */
  predicate EnoughIds<S>(file: CatalogFile<S>, sectionIds: seq<string>, itemIds: seq<string>) {
    file.Parsed? ==> |file.catalog.sections| <= |sectionIds| && |file.catalog.items| <= |itemIds|
  }

  /**
   * `import_catalog` from tables `t`: the reply and the tables it leaves. A file that is
   * missing, unreadable or malformed changes nothing; otherwise the store is emptied unless
   * `preserve` holds, then sections, items and infos are merged in that order. A failed
   * lookup stops the import where it is, keeping what was already inserted.
   */
  function ImportOutcome<S>(t: Tables, file: CatalogFile<S>, preserve: bool, fault: Fault,
                            sectionIds: seq<string>, itemIds: seq<string>): (o: Outcome)
    requires EnoughIds(file, sectionIds, itemIds)
    ensures !file.Parsed? ==> o.tables == t
    ensures file.Missing? ==> o.reply == Err(NotFoundError)
    ensures file.Unreadable? ==> o.reply == Err(ReadPrefix + file.readError)
    ensures file.Malformed? ==> o.reply == Err(ParsePrefix + file.parseError)
    ensures file.Parsed? && fault == NoFault ==> o.reply == Ok(Unit)
  {
    match file
    case Missing => Outcome(Err(NotFoundError), t)
    case Unreadable(e) => Outcome(Err(ReadPrefix + e), t)
    case Malformed(e) => Outcome(Err(ParsePrefix + e), t)
    case Parsed(c) =>
      var cleared := if preserve then Outcome(Ok(Unit), t) else ClearOutcome(t, fault);
      if cleared.reply.Err? then cleared else MergeOutcome(cleared.tables, c, fault, sectionIds, itemIds)
  }

  /**
   * The three merge loops of `import_catalog` run on tables `start`: the sections, then the
   * items, then the infos; a failed lookup stops the import with what was merged so far.
   */
  function MergeOutcome<S>(start: Tables, c: CatalogData<S>, fault: Fault,
                           sectionIds: seq<string>, itemIds: seq<string>): (o: Outcome)
    requires |c.sections| <= |sectionIds| && |c.items| <= |itemIds|
    ensures o.reply.Ok? <==> !(fault.LookupFails? && fault.step < |c.sections| + |c.items|)
    ensures start.sections <= o.tables.sections && start.items <= o.tables.items && start.infos <= o.tables.infos
  {
    var m := |c.sections|;
    if fault.LookupFails? && fault.step < m then
      Outcome(Err(SectionLookupPrefix + fault.text),
              start.(sections := ImportSections(start.sections, c.sections[..fault.step], sectionIds)))
    else
      var ss := ImportSections(start.sections, c.sections, sectionIds);
      if fault.LookupFails? && fault.step < m + |c.items| then
        Outcome(Err(ItemSectionLookupPrefix + fault.text),
                Tables(ss, ImportItems(ss, start.items, c.items[..fault.step - m], itemIds), start.infos))
      else
        Outcome(Ok(Unit), Tables(ss, ImportItems(ss, start.items, c.items, itemIds), ImportInfos(start.infos, c.infos)))
  }

  /** Whatever the file and however far the import gets, the constraints still hold. */
  lemma ImportKeepsConstraints<S>(t: Tables, file: CatalogFile<S>, preserve: bool, fault: Fault,
                                  sectionIds: seq<string>, itemIds: seq<string>)
    requires EnoughIds(file, sectionIds, itemIds)
    requires Constrained(t) && Fresh(sectionIds, SectionIds(t.sections)) && Fresh(itemIds, ItemIds(t.items))
    ensures Constrained(ImportOutcome(t, file, preserve, fault, sectionIds, itemIds).tables)
  {
    if file.Parsed? {
      var cleared := if preserve then Outcome(Ok(Unit), t) else ClearOutcome(t, fault);
      var start := cleared.tables;
      assert Constrained(start) && Fresh(sectionIds, SectionIds(start.sections)) && Fresh(itemIds, ItemIds(start.items));
      if cleared.reply.Ok? {
        MergeKeepsConstraints(start, file.catalog, fault, sectionIds, itemIds);
      }
    }
  }

  /** However far the merge loops get, the constraints still hold. */
  lemma MergeKeepsConstraints<S>(start: Tables, c: CatalogData<S>, fault: Fault,
                                 sectionIds: seq<string>, itemIds: seq<string>)
    requires |c.sections| <= |sectionIds| && |c.items| <= |itemIds|
    requires Constrained(start) && Fresh(sectionIds, SectionIds(start.sections)) && Fresh(itemIds, ItemIds(start.items))
    ensures Constrained(MergeOutcome(start, c, fault, sectionIds, itemIds).tables)
  {
    var m := |c.sections|;
    if fault.LookupFails? && fault.step < m {
      ImportSectionsUnique(start.sections, c.sections[..fault.step], sectionIds);
    } else {
      ImportSectionsUnique(start.sections, c.sections, sectionIds);
      var ss := ImportSections(start.sections, c.sections, sectionIds);
      if fault.LookupFails? && fault.step < m + |c.items| {
        ImportItemsUnique(ss, start.items, c.items[..fault.step - m], itemIds);
      } else {
        ImportItemsUnique(ss, start.items, c.items, itemIds);
        ImportInfosContents(start.infos, c.infos);
      }
    }
  }

  /**
   * Merging with `preserve` never loses a row: every table of the result extends the
   * table it started from, and a successful merge has every section name and info id of
   * the file.
   */
  lemma PreservingImportKeepsRows<S>(t: Tables, c: CatalogData<S>, fault: Fault,
                                     sectionIds: seq<string>, itemIds: seq<string>)
    requires |c.sections| <= |sectionIds| && |c.items| <= |itemIds|
    ensures var o := ImportOutcome(t, Parsed(c), true, fault, sectionIds, itemIds);
            t.sections <= o.tables.sections && t.items <= o.tables.items && t.infos <= o.tables.infos
    ensures var o := ImportOutcome(t, Parsed(c), true, fault, sectionIds, itemIds);
            o.reply.Ok? ==> SectionNames(o.tables.sections) == SectionNames(t.sections) + SectionNames(c.sections)
                            && InfoIds(o.tables.infos) == InfoIds(t.infos) + InfoIds(c.infos)
  {
    var m := |c.sections|;
    if fault.LookupFails? && fault.step < m {
      var _ := ImportSections(t.sections, c.sections[..fault.step], sectionIds);
    } else {
      var ss := ImportSections(t.sections, c.sections, sectionIds);
      if fault.LookupFails? && fault.step < m + |c.items| {
        var _ := ImportItems(ss, t.items, c.items[..fault.step - m], itemIds);
      } else {
        var _ := ImportItems(ss, t.items, c.items, itemIds);
        ImportSectionsContents(t.sections, c.sections, sectionIds);
        ImportInfosContents(t.infos, c.infos);
      }
    }
  }

  /**
   * As written, a catalog imported without `preserve` brings no item back: the store is
   * emptied, the file's sections are re-inserted under newly generated ids, and no item's
   * recorded section id is one of those.
   */
  lemma ReplacingImportDropsItems<S>(t: Tables, c: CatalogData<S>, sectionIds: seq<string>, itemIds: seq<string>)
    requires |c.sections| <= |sectionIds| && |c.items| <= |itemIds|
    requires forall x :: x in c.items ==> x.sectionId !in sectionIds
    ensures var o := ImportOutcome(t, Parsed(c), false, NoFault, sectionIds, itemIds);
            o.reply == Ok(Unit) && SectionNames(o.tables.sections) == SectionNames(c.sections) && o.tables.items == []
  {
    var ss := ImportSections([], c.sections, sectionIds);
    var r := ImportItems(ss, [], c.items, itemIds);
    ImportSectionsContents([], c.sections, sectionIds);
    ImportItemsContents(ss, [], c.items, itemIds);
    assert AcceptedCodes(c.items, SectionIds(ss)) == {} by {
      forall x | x in c.items ensures x.sectionId !in SectionIds(ss) {
        assert x.sectionId !in sectionIds[..|c.sections|] by {
          forall k | 0 <= k < |c.sections| ensures sectionIds[..|c.sections|][k] != x.sectionId {
            assert sectionIds[k] in sectionIds;
          }
        }
      }
    }
    NoCodesNoItems(r);
  }

  lemma NoCodesNoItems(xs: seq<Item>)
    ensures Codes(xs) == {} ==> xs == []
  {
    if xs != [] {
      assert xs[0].code in Codes(xs);
    }
  }

  /** One more file item merged. */
  lemma ImportItemsStep(ss: seq<Section>, items: seq<Item>, incoming: seq<Item>, ids: seq<string>, j: nat)
    requires j < |incoming| <= |ids|
    ensures var prev := ImportItems(ss, items, incoming[..j], ids);
            var x := incoming[j];
            ImportItems(ss, items, incoming[..j + 1], ids)
            == if FindById(ss, x.sectionId).Some? && x.code !in Codes(prev)
               then prev + [Item(ids[j], x.code, x.description, x.sectionId, x.imagePath)]
               else prev
  {
    assert incoming[..j + 1][..j] == incoming[..j];
  }

  /** One more file section merged. */
  lemma ImportSectionsStep(ss: seq<Section>, incoming: seq<Section>, ids: seq<string>, i: nat)
    requires i < |incoming| <= |ids|
    ensures var prev := ImportSections(ss, incoming[..i], ids);
            var s := incoming[i];
            ImportSections(ss, incoming[..i + 1], ids)
            == if s.name in SectionNames(prev) then prev else prev + [Section(ids[i], s.name)]
  {
    assert incoming[..i + 1][..i] == incoming[..i];
  }

  /** One more file info merged. */
  lemma ImportInfosStep(infos: seq<Info>, incoming: seq<Info>, k: nat)
    requires k < |incoming|
    ensures var prev := ImportInfos(infos, incoming[..k]);
            var y := incoming[k];
            ImportInfos(infos, incoming[..k + 1]) == if y.id in InfoIds(prev) then prev else prev + [y]
  {
    assert incoming[..k + 1][..k] == incoming[..k];
  }

  // ---------------------------------------------------------------------------------
  // The intended import: items follow their section by name
  // ---------------------------------------------------------------------------------

  /**
   * The file's section id `sectionId` names a file section whose name the store has: the
   * item can be placed under the store's section of that name.
   */
  predicate Resolves(fileSections: seq<Section>, ss: seq<Section>, sectionId: string) {
    var f := FindById(fileSections, sectionId);
    f.Some? && f.value.name in SectionNames(ss)
  }

  /**
   * The items merge the import evidently intends: an item's recorded section id is looked
   * up among the file's sections, and the item goes under the store's section with that
   * section's name.
   */
  function ImportItemsRemapped(fileSections: seq<Section>, ss: seq<Section>, items: seq<Item>,
                               incoming: seq<Item>, ids: seq<string>): (r: seq<Item>)
    requires |incoming| <= |ids|
    ensures items <= r
    ensures |r| <= |items| + |incoming|
    decreases |incoming|
  {
    if incoming == [] then items
    else
      var n := |incoming| - 1;
      var prev := ImportItemsRemapped(fileSections, ss, items, incoming[..n], ids);
      var x := incoming[n];
      var file := FindById(fileSections, x.sectionId);
      var target := if file.Some? then FindByName(ss, file.value.name) else None;
      if target.Some? && x.code !in Codes(prev) then
        prev + [Item(ids[n], x.code, x.description, target.value.id, x.imagePath)]
      else prev
  }

  /**
   * With the intended merge, the codes are the store's plus those of the file's items whose
   * section resolves by name, and every new item names a section of the store.
   */
  lemma {:induction false} ImportItemsRemappedContents(fileSections: seq<Section>, ss: seq<Section>, items: seq<Item>,
                                                       incoming: seq<Item>, ids: seq<string>)
    requires |incoming| <= |ids|
    ensures var r := ImportItemsRemapped(fileSections, ss, items, incoming, ids);
            && Codes(r) == Codes(items) + ResolvedCodes(fileSections, ss, incoming)
            && forall i :: |items| <= i < |r| ==> r[i].sectionId in SectionIds(ss)
    decreases |incoming|
  {
    if incoming != [] {
      var n := |incoming| - 1;
      var prev := ImportItemsRemapped(fileSections, ss, items, incoming[..n], ids);
      var x := incoming[n];
      ImportItemsRemappedContents(fileSections, ss, items, incoming[..n], ids);
      PrefixSnoc(incoming, n);
      assert incoming[..n + 1] == incoming;
      ResolvedSnoc(fileSections, ss, incoming[..n], x);
      var file := FindById(fileSections, x.sectionId);
      var target := if file.Some? then FindByName(ss, file.value.name) else None;
      assert target.Some? <==> Resolves(fileSections, ss, x.sectionId);
      if target.Some? && x.code !in Codes(prev) {
        ItemsSnoc(prev, Item(ids[n], x.code, x.description, target.value.id, x.imagePath));
      }
    }
  }

  /** The codes of the file's items whose section resolves by name. */
  function ResolvedCodes(fileSections: seq<Section>, ss: seq<Section>, incoming: seq<Item>): set<string> {
    set x | x in incoming && Resolves(fileSections, ss, x.sectionId) :: x.code
  }

  lemma ResolvedSnoc(fileSections: seq<Section>, ss: seq<Section>, xs: seq<Item>, x: Item)
    ensures ResolvedCodes(fileSections, ss, xs + [x])
            == ResolvedCodes(fileSections, ss, xs)
               + (if Resolves(fileSections, ss, x.sectionId) then {x.code} else {})
  {
    assert forall t :: t in xs + [x] <==> t in xs || t == x;
  }

  /**
   * With the intended merge, replacing the store with a catalog brings back every item
   * whose recorded section is one of the file's sections, each under a section that exists.
   */
  lemma RemappedReplaceKeepsItems<S>(c: CatalogData<S>, sectionIds: seq<string>, itemIds: seq<string>)
    requires |c.sections| <= |sectionIds| && |c.items| <= |itemIds|
    ensures var ss := ImportSections([], c.sections, sectionIds);
            var r := ImportItemsRemapped(c.sections, ss, [], c.items, itemIds);
            Codes(r) == AcceptedCodes(c.items, SectionIds(c.sections))
            && forall i :: 0 <= i < |r| ==> r[i].sectionId in SectionIds(ss)
  {
    var ss := ImportSections([], c.sections, sectionIds);
    ImportSectionsContents([], c.sections, sectionIds);
    ImportItemsRemappedContents(c.sections, ss, [], c.items, itemIds);
    forall x | x in c.items
      ensures Resolves(c.sections, ss, x.sectionId) <==> x.sectionId in SectionIds(c.sections)
    {
      var f := FindById(c.sections, x.sectionId);
      if f.Some? {
        assert f.value.name in SectionNames(c.sections);
      }
    }
  }

  // ---------------------------------------------------------------------------------
  // Export
  // ---------------------------------------------------------------------------------

  /** `list_items`: the items recorded under one section, in table order. */
  function ItemsOf(items: seq<Item>, sectionId: string): (r: seq<Item>)
    ensures forall x :: x in r <==> x in items && x.sectionId == sectionId
  {
    if items == [] then []
    else
      var n := |items| - 1;
      assert items == items[..n] + [items[n]];
      ItemsOf(items[..n], sectionId) + (if items[n].sectionId == sectionId then [items[n]] else [])
  }

  /** `list_infos`: the infos recorded under one item code, in table order. */
  function InfosOf(infos: seq<Info>, code: string): (r: seq<Info>)
    ensures forall y :: y in r <==> y in infos && y.itemCode == code
  {
    if infos == [] then []
    else
      var n := |infos| - 1;
      assert infos == infos[..n] + [infos[n]];
      InfosOf(infos[..n], code) + (if infos[n].itemCode == code then [infos[n]] else [])
  }

  /** The exported items: for each section in table order, its items. */
  function ExportedItems(ss: seq<Section>, items: seq<Item>): (r: seq<Item>)
    ensures forall x :: x in r <==> x in items && x.sectionId in SectionIds(ss)
  {
    if ss == [] then []
    else
      var n := |ss| - 1;
      assert SectionIds(ss) == SectionIds(ss[..n]) + {ss[n].id} by {
        assert ss == ss[..n] + [ss[n]];
      }
      ExportedItems(ss[..n], items) + ItemsOf(items, ss[n].id)
  }

  /** The exported infos: for each exported item in order, its infos. */
  function InfosOfAll(xs: seq<Item>, infos: seq<Info>): seq<Info> {
    if xs == [] then []
    else
      var n := |xs| - 1;
      InfosOfAll(xs[..n], infos) + InfosOf(infos, xs[n].code)
  }

  /** The collected infos are exactly the infos of the given items. */
  lemma {:induction false} InfosOfAllContents(xs: seq<Item>, infos: seq<Info>)
    ensures forall y :: y in InfosOfAll(xs, infos) <==> y in infos && y.itemCode in Codes(xs)
    decreases |xs|
  {
    if xs != [] {
      var n := |xs| - 1;
      InfosOfAllContents(xs[..n], infos);
      assert Codes(xs) == Codes(xs[..n]) + {xs[n].code} by {
        assert xs == xs[..n] + [xs[n]];
      }
    }
  }

  lemma InfosOfAllSnoc(xs: seq<Item>, x: Item, infos: seq<Info>)
    ensures InfosOfAll(xs + [x], infos) == InfosOfAll(xs, infos) + InfosOf(infos, x.code)
  {
    assert (xs + [x])[..|xs|] == xs;
  }

  /** One more item of the section: its infos follow those collected so far. */
  lemma CollectInfosStep(allItems: seq<Item>, sectionItems: seq<Item>, j: nat, infos: seq<Info>)
    requires j < |sectionItems|
    ensures InfosOfAll(allItems + sectionItems[..j + 1], infos)
            == InfosOfAll(allItems + sectionItems[..j], infos) + InfosOf(infos, sectionItems[j].code)
  {
    assert sectionItems[..j + 1] == sectionItems[..j] + [sectionItems[j]];
    AppendAssoc(allItems, sectionItems[..j], [sectionItems[j]]);
    InfosOfAllSnoc(allItems + sectionItems[..j], sectionItems[j], infos);
  }

  lemma ExportedItemsStep(ss: seq<Section>, i: nat, items: seq<Item>)
    requires i < |ss|
    ensures ExportedItems(ss[..i + 1], items) == ExportedItems(ss[..i], items) + ItemsOf(items, ss[i].id)
  {
    assert ss[..i + 1][..i] == ss[..i];
  }

  /** The inner loop of `export_catalog`: the infos of each item of one section, appended. */
  method CollectInfos(allItems: seq<Item>, allInfos: seq<Info>, sectionItems: seq<Item>, infos: seq<Info>)
    returns (r: seq<Info>)
    requires allInfos == InfosOfAll(allItems, infos)
    ensures r == InfosOfAll(allItems + sectionItems, infos)
  {
    r := allInfos;
    var j := 0;
    assert allItems + sectionItems[..0] == allItems;
    while j < |sectionItems|
      invariant 0 <= j <= |sectionItems|
      invariant r == InfosOfAll(allItems + sectionItems[..j], infos)
    {
      CollectInfosStep(allItems, sectionItems, j, infos);
      r := r + InfosOf(infos, sectionItems[j].code);
      j := j + 1;
    }
    assert sectionItems[..j] == sectionItems;
  }

  /** The section loop over the section table's rows. */
  method MergeSectionList(ss: seq<Section>, incoming: seq<Section>, fault: Fault, ids: seq<string>)
    returns (r: seq<Section>, stopped: bool)
    requires |incoming| <= |ids|
    ensures stopped <==> fault.LookupFails? && fault.step < |incoming|
    ensures stopped ==> r == ImportSections(ss, incoming[..fault.step], ids)
    ensures !stopped ==> r == ImportSections(ss, incoming, ids)
  {
    r := ss;
    var i := 0;
    while i < |incoming|
      invariant 0 <= i <= |incoming|
      invariant r == ImportSections(ss, incoming[..i], ids)
      invariant !(fault.LookupFails? && fault.step < i)
    {
      if fault.LookupFails? && fault.step == i {
        return r, true;
      }
      r := MergeSection(ss, incoming, ids, i, r);
      i := i + 1;
    }
    assert incoming[..i] == incoming;
    stopped := false;
  }

  /** One pass of the section loop: the section is inserted unless its name is taken. */
  method MergeSection(ss: seq<Section>, incoming: seq<Section>, ids: seq<string>, i: nat, r: seq<Section>)
    returns (r': seq<Section>)
    requires i < |incoming| <= |ids|
    requires r == ImportSections(ss, incoming[..i], ids)
    ensures r' == ImportSections(ss, incoming[..i + 1], ids)
  {
    var s := incoming[i];
    ImportSectionsStep(ss, incoming, ids, i);
    r' := r;
    if FindByName(r, s.name).None? {
      r' := r + [Section(ids[i], s.name)];
    }
  }

  /** The document `export_catalog` writes for tables `t`. */
  function Exported<S>(t: Tables, settings: S, createdAt: string): (c: CatalogData<S>)
    ensures c.version == CatalogVersion && c.sections == t.sections
    ensures forall x :: x in c.items <==> x in t.items && x.sectionId in SectionIds(t.sections)
    ensures forall y :: y in c.infos <==> y in t.infos && y.itemCode in Codes(c.items)
  {
    var items := ExportedItems(t.sections, t.items);
    InfosOfAllContents(items, t.infos);
    CatalogData(CatalogVersion, createdAt, settings, t.sections, items, InfosOfAll(items, t.infos))
  }

  /** Importing an export back into the same store, keeping its rows, changes nothing. */
  lemma ReimportExportChangesNothing<S>(t: Tables, settings: S, createdAt: string,
                                        sectionIds: seq<string>, itemIds: seq<string>)
    requires |t.sections| <= |sectionIds| && |ExportedItems(t.sections, t.items)| <= |itemIds|
    ensures ImportOutcome(t, Parsed(Exported(t, settings, createdAt)), true, NoFault, sectionIds, itemIds)
            == Outcome(Ok(Unit), t)
  {
    var c := Exported(t, settings, createdAt);
    ImportKnownSections(t.sections, c.sections, sectionIds);
    assert Codes(c.items) <= Codes(t.items) by {
      forall x | x in c.items ensures x.code in Codes(t.items) { }
    }
    ImportKnownItems(t.sections, t.items, c.items, itemIds);
    assert InfoIds(c.infos) <= InfoIds(t.infos) by {
      forall y | y in c.infos ensures y.id in InfoIds(t.infos) { }
    }
    ImportKnownInfos(t.infos, c.infos);
  }

  /**
   * Replacing the store with its own export, as written, leaves the sections and no item;
   * with the intended merge, every exported item code comes back.
   */
  lemma ReplaceWithExport<S>(t: Tables, settings: S, createdAt: string, sectionIds: seq<string>, itemIds: seq<string>)
    requires |t.sections| <= |sectionIds| && |ExportedItems(t.sections, t.items)| <= |itemIds|
    requires forall k :: 0 <= k < |sectionIds| ==> sectionIds[k] !in SectionIds(t.sections)
    ensures var o := ImportOutcome(t, Parsed(Exported(t, settings, createdAt)), false, NoFault, sectionIds, itemIds);
            o.tables.items == [] && SectionNames(o.tables.sections) == SectionNames(t.sections)
    ensures var c := Exported(t, settings, createdAt);
            var ss := ImportSections([], c.sections, sectionIds);
            Codes(ImportItemsRemapped(c.sections, ss, [], c.items, itemIds)) == Codes(c.items)
  {
    var c := Exported(t, settings, createdAt);
    forall x | x in c.items ensures x.sectionId !in sectionIds {
      assert x.sectionId in SectionIds(t.sections);
      forall k | 0 <= k < |sectionIds| ensures sectionIds[k] != x.sectionId { }
    }
    ReplacingImportDropsItems(t, c, sectionIds, itemIds);
    RemappedReplaceKeepsItems(c, sectionIds, itemIds);
    assert AcceptedCodes(c.items, SectionIds(c.sections)) == Codes(c.items);
  }

  // ---------------------------------------------------------------------------------
  // The store
  // ---------------------------------------------------------------------------------

  /** The catalog database: sections, items and infos in insertion order. */
  class CatalogDb {
    var sections: seq<Section>
    var items: seq<Item>
    var infos: seq<Info>

    constructor (t: Tables)
      ensures Contents() == t
    {
      sections, items, infos := t.sections, t.items, t.infos;
    }

    function Contents(): Tables
      reads this
    {
      Tables(sections, items, infos)
    }

    predicate Valid()
      reads this
    {
      Constrained(Contents())
    }

    /** `clear_database`. */
    method ClearDatabase(fault: Fault) returns (r: Result<Unit, string>)
      modifies this
      ensures Outcome(r, Contents()) == ClearOutcome(old(Contents()), fault)
    {
      if fault.DeleteFails? && fault.table == InfosTable {
        return Err(ClearInfosPrefix + fault.text);
      }
      infos := [];
      if fault.DeleteFails? && fault.table == ItemsTable {
        return Err(ClearItemsPrefix + fault.text);
      }
      items := [];
      if fault.DeleteFails? {
        return Err(ClearSectionsPrefix + fault.text);
      }
      sections := [];
      r := Ok(Unit);
    }

    /**
     * `import_catalog`. `sectionIds` and `itemIds` stand for the UUIDs the store generates
     * for inserted sections and items.
     */
    method ImportCatalog<S>(file: CatalogFile<S>, preserveCurrent: bool, fault: Fault,
                            sectionIds: seq<string>, itemIds: seq<string>) returns (r: Result<Unit, string>)
      requires EnoughIds(file, sectionIds, itemIds)
      requires Valid() && Fresh(sectionIds, SectionIds(sections)) && Fresh(itemIds, ItemIds(items))
      modifies this
      ensures Outcome(r, Contents()) == ImportOutcome(old(Contents()), file, preserveCurrent, fault, sectionIds, itemIds)
      ensures Valid()
    {
      ImportKeepsConstraints(Contents(), file, preserveCurrent, fault, sectionIds, itemIds);
      match file
      case Missing => return Err(NotFoundError);
      case Unreadable(e) => return Err(ReadPrefix + e);
      case Malformed(e) => return Err(ParsePrefix + e);
      case Parsed(c) => r := ImportParsed(c, preserveCurrent, fault, sectionIds, itemIds);
    }

    /** `import_catalog` once the file is parsed: the optional clear, then the three merge loops. */
    method ImportParsed<S>(c: CatalogData<S>, preserveCurrent: bool, fault: Fault,
                           sectionIds: seq<string>, itemIds: seq<string>) returns (r: Result<Unit, string>)
      requires |c.sections| <= |sectionIds| && |c.items| <= |itemIds|
      modifies this
      ensures Outcome(r, Contents()) == ImportOutcome(old(Contents()), Parsed(c), preserveCurrent, fault, sectionIds, itemIds)
    {
      if !preserveCurrent {
        r := ClearDatabase(fault);
        if r.Err? {
          return;
        }
      }
      r := MergeCatalog(c, fault, sectionIds, itemIds);
    }

    /** The merge loops of `import_catalog`, run on the current tables. */
    method MergeCatalog<S>(c: CatalogData<S>, fault: Fault, sectionIds: seq<string>, itemIds: seq<string>)
      returns (r: Result<Unit, string>)
      requires |c.sections| <= |sectionIds| && |c.items| <= |itemIds|
      modifies this
      ensures Outcome(r, Contents()) == MergeOutcome(old(Contents()), c, fault, sectionIds, itemIds)
    {
      var stopped := MergeSections(c.sections, fault, sectionIds);
      if stopped {
        return Err(SectionLookupPrefix + fault.text);
      }
      stopped := MergeItems(c.items, fault, |c.sections|, itemIds);
      if stopped {
        return Err(ItemSectionLookupPrefix + fault.text);
      }
      MergeInfos(c.infos);
      r := Ok(Unit);
    }

    /** The section loop of `import_catalog`; it stops at a failed lookup. */
    method MergeSections(incoming: seq<Section>, fault: Fault, ids: seq<string>) returns (stopped: bool)
      requires |incoming| <= |ids|
      modifies this
      ensures items == old(items) && infos == old(infos)
      ensures stopped <==> fault.LookupFails? && fault.step < |incoming|
      ensures stopped ==> sections == ImportSections(old(sections), incoming[..fault.step], ids)
      ensures !stopped ==> sections == ImportSections(old(sections), incoming, ids)
    {
      sections, stopped := MergeSectionList(sections, incoming, fault, ids);
    }

    /**
     * The item loop of `import_catalog`; `offset` is the number of lookups made before it,
     * and it stops at a failed lookup.
     */
    method MergeItems(incoming: seq<Item>, fault: Fault, offset: nat, ids: seq<string>) returns (stopped: bool)
      requires |incoming| <= |ids|
      requires !(fault.LookupFails? && fault.step < offset)
      modifies this
      ensures sections == old(sections) && infos == old(infos)
      ensures stopped <==> fault.LookupFails? && fault.step < offset + |incoming|
      ensures stopped ==> items == ImportItems(sections, old(items), incoming[..fault.step - offset], ids)
      ensures !stopped ==> items == ImportItems(sections, old(items), incoming, ids)
    {
      ghost var base := items;
      var j := 0;
      assert incoming[..0] == [];
      while j < |incoming|
        invariant 0 <= j <= |incoming|
        invariant items == ImportItems(sections, base, incoming[..j], ids)
        invariant sections == old(sections) && infos == old(infos)
        invariant !(fault.LookupFails? && fault.step < offset + j)
      {
        if fault.LookupFails? && fault.step == offset + j {
          return true;
        }
        MergeItem(incoming[j], ids[j]);
        assert items == ImportItems(sections, base, incoming[..j + 1], ids) by {
          ImportItemsStep(sections, base, incoming, ids, j);
        }
        j := j + 1;
      }
      assert incoming[..j] == incoming;
      stopped := false;
    }

    /** One file item: inserted under `id` when its section exists and its code is new. */
    method MergeItem(x: Item, id: string)
      modifies this
      ensures sections == old(sections) && infos == old(infos)
      ensures items == if FindById(sections, x.sectionId).Some? && x.code !in Codes(old(items))
                       then old(items) + [Item(id, x.code, x.description, x.sectionId, x.imagePath)]
                       else old(items)
    {
      if FindById(sections, x.sectionId).Some? {
        // The UNIQUE constraint on the code refuses a duplicate; the refusal is ignored.
        if x.code !in Codes(items) {
          items := items + [Item(id, x.code, x.description, x.sectionId, x.imagePath)];
        }
      }
    }

    /** The info loop of `import_catalog`. */
    method MergeInfos(incoming: seq<Info>)
      modifies this
      ensures sections == old(sections) && items == old(items)
      ensures infos == ImportInfos(old(infos), incoming)
    {
      var k := 0;
      while k < |incoming|
        invariant 0 <= k <= |incoming|
        invariant infos == ImportInfos(old(infos), incoming[..k])
        invariant sections == old(sections) && items == old(items)
      {
        var y := incoming[k];
        ImportInfosStep(old(infos), incoming, k);
        // The id is the primary key: a taken id is refused and the refusal ignored.
        if y.id !in InfoIds(infos) {
          infos := infos + [y];
        }
        k := k + 1;
      }
      assert incoming[..k] == incoming;
    }

    /**
     * `export_catalog`: the document it writes, or the write error. The settings come
     * from another store and are passed in, as is the creation time.
     */
    method ExportCatalog<S>(settings: S, createdAt: string, writeError: Option<string>)
      returns (r: Result<CatalogData<S>, string>)
      ensures writeError.Some? ==> r == Err(SaveFilePrefix + writeError.value)
      ensures writeError.None? ==> r == Ok(Exported(Contents(), settings, createdAt))
    {
      var allItems: seq<Item> := [];
      var allInfos: seq<Info> := [];
      var i := 0;
      while i < |sections|
        invariant 0 <= i <= |sections|
        invariant allItems == ExportedItems(sections[..i], items)
        invariant allInfos == InfosOfAll(allItems, infos)
      {
        var sectionItems := ItemsOf(items, sections[i].id);
        allInfos := CollectInfos(allItems, allInfos, sectionItems, infos);
        ExportedItemsStep(sections, i, items);
        allItems := allItems + sectionItems;
        i := i + 1;
      }
      assert sections[..i] == sections;
      if writeError.Some? {
        return Err(SaveFilePrefix + writeError.value);
      }
      r := Ok(CatalogData(CatalogVersion, createdAt, settings, sections, allItems, allInfos));
    }
  }
}
