/**
 * Building the nutrition source table: which dataset foods it keeps, what makes a build
 * fail, and the name matches of entries that no code gives numbers.
 */
module SourceTable {
  import opened Basics
  import opened NameIndex

  /** A food as most datasets give it. */
  datatype SourceFood = SourceFood(code: string, name: Name, kcal: real)

  /** CIQUAL's editions also carry names for codes they give no numbers for. */
  datatype CiqualTable = CiqualTable(foods: seq<SourceFood>, names: map<string, Name>)

  datatype Sources = Sources(
    ciqual: CiqualTable, ciqual2020: CiqualTable, calnut: seq<SourceFood>, usda: seq<Food>, cofid: seq<SourceFood>)

  /** The key of a dataset food, "dataset:code". */
  type Key = (Dataset, string)

  function KeyOf(food: Food): Key {
    (food.dataset, food.code)
  }

  // ----- the foods the table keeps

  function AsFood(dataset: Dataset, food: SourceFood): Food {
    Food(dataset, food.code, food.name, food.kcal, None, None, None)
  }

  function AsFoods(dataset: Dataset, foods: seq<SourceFood>): (r: seq<Food>)
    ensures |r| == |foods| && forall i | 0 <= i < |foods| :: r[i] == AsFood(dataset, foods[i])
  {
    seq(|foods|, i requires 0 <= i < |foods| => AsFood(dataset, foods[i]))
  }

  function CodesOf(foods: seq<SourceFood>): set<string> {
    set food | food in foods :: food.code
  }

  /** The foods whose code is none of these, in their order. */
  function Without(foods: seq<SourceFood>, codes: set<string>): (r: seq<SourceFood>)
    ensures forall food :: food in r <==> food in foods && food.code !in codes
  {
    if foods == [] then []
    else if foods[0].code in codes then Without(foods[1..], codes)
    else [foods[0]] + Without(foods[1..], codes)
  }

  function Renamed(foods: seq<SourceFood>, english: map<string, Name>): (r: seq<SourceFood>)
    ensures |r| == |foods|
    ensures forall i | 0 <= i < |foods| ::
      r[i] == foods[i].(name := if foods[i].code in english then english[foods[i].code] else foods[i].name)
  {
    seq(|foods|, i requires 0 <= i < |foods| =>
      foods[i].(name := if foods[i].code in english then english[foods[i].code] else foods[i].name))
  }

  function Of2020(sources: Sources): seq<SourceFood> {
    Without(sources.ciqual2020.foods, CodesOf(sources.ciqual.foods))
  }

  function OfCalnut(sources: Sources): seq<SourceFood> {
    Renamed(Without(sources.calnut, CodesOf(sources.ciqual.foods) + CodesOf(Of2020(sources))),
            sources.ciqual2020.names + sources.ciqual.names)
  }

  function Gathered(sources: Sources): seq<Food> {
    AsFoods(Ciqual, sources.ciqual.foods) + AsFoods(Ciqual2020, Of2020(sources)) + AsFoods(Calnut, OfCalnut(sources))
    + sources.usda + AsFoods(Cofid, sources.cofid)
  }

  function Count(foods: seq<Food>, key: Key): nat {
    if foods == [] then 0 else Count(foods[..|foods| - 1], key) + (if KeyOf(foods[|foods| - 1]) == key then 1 else 0)
  }

  /** The foods among these whose key is given once in all, in their order. */
  function Named(foods: seq<Food>, all: seq<Food>): seq<Food> {
    if foods == [] then []
    else
      var last := foods[|foods| - 1];
      Named(foods[..|foods| - 1], all) + (if Count(all, KeyOf(last)) == 1 then [last] else [])
  }

  method WithoutAmbiguousCodes(foods: seq<Food>) returns (kept: seq<Food>)
    ensures kept == Named(foods, foods)
  {
    var counts: map<Key, nat> := map[];
    var i := 0;
    while i < |foods|
      invariant i <= |foods|
      invariant forall key :: Count(foods[..i], key) == if key in counts then counts[key] else 0
    {
      assert foods[..i + 1][..i] == foods[..i];
      var key := KeyOf(foods[i]);
      counts := counts[key := (if key in counts then counts[key] else 0) + 1];
      i := i + 1;
    }
    assert foods[..i] == foods;
    kept := [];
    i := 0;
    while i < |foods|
      invariant i <= |foods| && kept == Named(foods[..i], foods)
    {
      assert foods[..i + 1][..i] == foods[..i];
      assert Count(foods, KeyOf(foods[i])) == if KeyOf(foods[i]) in counts then counts[KeyOf(foods[i])] else 0;
      if KeyOf(foods[i]) in counts && counts[KeyOf(foods[i])] == 1 {
        kept := kept + [foods[i]];
      }
      i := i + 1;
    }
    assert foods[..i] == foods;
  }

  /** The table's foods: those gathered whose key names one food. */
  function TableFoods(sources: Sources): seq<Food> {
    Named(Gathered(sources), Gathered(sources))
  }

  // ----- what is kept

  lemma {:induction false} NamedIs(foods: seq<Food>, all: seq<Food>)
    ensures forall food :: food in Named(foods, all) <==> food in foods && Count(all, KeyOf(food)) == 1
    ensures forall key :: Count(Named(foods, all), key) == if Count(all, key) == 1 then Count(foods, key) else 0
  {
    if foods != [] {
      var n := |foods| - 1;
      NamedIs(foods[..n], all);
      assert foods == foods[..n] + [foods[n]];
      var before := Named(foods[..n], all);
      assert (before + [foods[n]])[..|before|] == before;
      assert before + [] == before;
    }
  }

  lemma {:induction false} CountAt(foods: seq<Food>, i: nat, key: Key)
    requires i < |foods| && KeyOf(foods[i]) == key
    ensures Count(foods, key) >= 1
    ensures Count(foods, key) == 1 ==> forall j | 0 <= j < |foods| && KeyOf(foods[j]) == key :: j == i
  {
    var n := |foods| - 1;
    if i < n {
      CountAt(foods[..n], i, key);
    } else {
      forall j | 0 <= j < n && KeyOf(foods[j]) == key ensures Count(foods[..n], key) >= 1 {
        CountAt(foods[..n], j, key);
      }
    }
  }

  /** A key names one food of the table. */
  ghost predicate Resolves(foods: seq<Food>, key: Key, k: nat) {
    && k < |foods| && KeyOf(foods[k]) == key
    && forall j | 0 <= j < |foods| && KeyOf(foods[j]) == key :: j == k
  }

  /**
   * Every food kept is one gathered, the only one under its key in the table and among those
   * gathered; and no such food is dropped.
   */
  lemma KeptExactly(sources: Sources)
    ensures forall food :: food in TableFoods(sources) <==>
      food in Gathered(sources) && Count(Gathered(sources), KeyOf(food)) == 1
    ensures forall k: nat | k < |TableFoods(sources)| :: Resolves(TableFoods(sources), KeyOf(TableFoods(sources)[k]), k)
  {
    var all, kept := Gathered(sources), TableFoods(sources);
    NamedIs(all, all);
    forall k: nat | k < |kept| ensures Resolves(kept, KeyOf(kept[k]), k) {
      assert kept[k] in kept;
      CountAt(kept, k, KeyOf(kept[k]));
    }
  }

  predicate IsCiqualCoded(dataset: Dataset) {
    dataset.Ciqual? || dataset.Ciqual2020? || dataset.Calnut?
  }

  /** USDA's reader gives only its own dataset's foods. */
  predicate Sound(sources: Sources) {
    forall food | food in sources.usda :: food.dataset.Usda?
  }

  /** The name CIQUAL gives a code, this edition's before the last one's. */
  function CiqualName(sources: Sources, food: SourceFood): Name {
    if food.code in sources.ciqual.names then sources.ciqual.names[food.code]
    else if food.code in sources.ciqual2020.names then sources.ciqual2020.names[food.code]
    else food.name
  }

  /** A food CALNUT counts for: neither CIQUAL edition has its code. */
  ghost predicate IsCounted(sources: Sources, f: SourceFood) {
    && f in sources.calnut
    && f.code !in CodesOf(sources.ciqual.foods) && f.code !in CodesOf(sources.ciqual2020.foods)
  }

  /** What the table says it keeps of each dataset. */
  ghost predicate Belongs(sources: Sources, food: Food) {
    var counted := CodesOf(sources.ciqual.foods);
    match food.dataset
    case Ciqual => exists f :: f in sources.ciqual.foods && IsFrom(f, f.name, food)
    case Ciqual2020 => exists f :: f in sources.ciqual2020.foods && f.code !in counted && IsFrom(f, f.name, food)
    case Calnut => exists f :: IsCounted(sources, f) && IsFrom(f, CiqualName(sources, f), food)
    case Usda => food in sources.usda
    case Cofid => exists f :: f in sources.cofid && IsFrom(f, f.name, food)
  }

  /** A food has the code and numbers of one that gives neither piece weight, density nor NDB number. */
  predicate IsFrom(f: SourceFood, name: Name, food: Food) {
    && food.code == f.code && food.kcal == f.kcal && food.name == name
    && food.pieceWeight.None? && food.density.None? && food.ndb.None?
  }

  lemma AsFoodsAre(dataset: Dataset, foods: seq<SourceFood>, food: Food)
    ensures food in AsFoods(dataset, foods) <==> exists f :: f in foods && food == AsFood(dataset, f)
  {
    if f :| f in foods && food == AsFood(dataset, f) {
      var i :| 0 <= i < |foods| && foods[i] == f;
      assert AsFoods(dataset, foods)[i] == food;
    }
    if food in AsFoods(dataset, foods) {
      var i :| 0 <= i < |foods| && AsFoods(dataset, foods)[i] == food;
      assert foods[i] in foods;
    }
  }

  lemma CalnutCodes(sources: Sources, code: string)
    ensures code in CodesOf(sources.ciqual.foods) + CodesOf(Of2020(sources))
        <==> code in CodesOf(sources.ciqual.foods) || code in CodesOf(sources.ciqual2020.foods)
  {
    if food :| food in sources.ciqual2020.foods && food.code == code && code !in CodesOf(sources.ciqual.foods) {
      assert food in Of2020(sources);
    }
  }

  lemma CalnutBare(sources: Sources, f: SourceFood)
    ensures f in Without(sources.calnut, CodesOf(sources.ciqual.foods) + CodesOf(Of2020(sources))) <==>
      IsCounted(sources, f)
  {
    CalnutCodes(sources, f.code);
  }

  lemma CalnutNamed(sources: Sources, i: nat)
    requires i < |OfCalnut(sources)|
    ensures var bare := Without(sources.calnut, CodesOf(sources.ciqual.foods) + CodesOf(Of2020(sources)));
      OfCalnut(sources)[i] == bare[i].(name := CiqualName(sources, bare[i]))
  {
  }

  lemma CalnutFood(sources: Sources, food: Food)
    requires food.dataset.Calnut?
    ensures food in AsFoods(Calnut, OfCalnut(sources)) <==> Belongs(sources, food)
  {
    var bare := Without(sources.calnut, CodesOf(sources.ciqual.foods) + CodesOf(Of2020(sources)));
    if food in AsFoods(Calnut, OfCalnut(sources)) {
      var i :| 0 <= i < |OfCalnut(sources)| && AsFoods(Calnut, OfCalnut(sources))[i] == food;
      CalnutNamed(sources, i);
      assert bare[i] in bare;
      CalnutBare(sources, bare[i]);
    }
    if Belongs(sources, food) {
      var f :| IsCounted(sources, f) && IsFrom(f, CiqualName(sources, f), food);
      CalnutBare(sources, f);
      var i :| 0 <= i < |bare| && bare[i] == f;
      CalnutNamed(sources, i);
      assert AsFoods(Calnut, OfCalnut(sources))[i] == food;
    }
  }

  lemma GatheredParts(sources: Sources, food: Food)
    ensures food in Gathered(sources) <==>
      || food in AsFoods(Ciqual, sources.ciqual.foods)
      || food in AsFoods(Ciqual2020, Of2020(sources))
      || food in AsFoods(Calnut, OfCalnut(sources))
      || food in sources.usda
      || food in AsFoods(Cofid, sources.cofid)
  {
  }

  /**
   * Exactly these foods are gathered: those of CIQUAL 2025, those of 2020 whose code 2025 does
   * not have, those of CALNUT whose code neither has, by CIQUAL's name, and all of USDA and CoFID.
   */
  lemma GatheredExactly(sources: Sources, food: Food)
    requires Sound(sources)
    ensures food in Gathered(sources) <==> Belongs(sources, food)
  {
    GatheredParts(sources, food);
    AsFoodsAre(Ciqual, sources.ciqual.foods, food);
    AsFoodsAre(Ciqual2020, Of2020(sources), food);
    AsFoodsAre(Calnut, OfCalnut(sources), food);
    AsFoodsAre(Cofid, sources.cofid, food);
    if food.dataset.Calnut? {
      CalnutFood(sources, food);
    }
  }

  /** Each CIQUAL code is kept under at most one of the three datasets that use those codes. */
  lemma CiqualCodeKeptOnce(sources: Sources, i: nat, j: nat)
    requires Sound(sources)
    requires i < |TableFoods(sources)| && j < |TableFoods(sources)|
    requires IsCiqualCoded(TableFoods(sources)[i].dataset) && IsCiqualCoded(TableFoods(sources)[j].dataset)
    requires TableFoods(sources)[i].code == TableFoods(sources)[j].code
    ensures i == j
  {
    var kept := TableFoods(sources);
    assert kept[i] in kept && kept[j] in kept;
    KeptExactly(sources);
    GatheredExactly(sources, kept[i]);
    GatheredExactly(sources, kept[j]);
    assert Resolves(kept, KeyOf(kept[i]), i);
  }

  // ----- the lists and the taxonomy

  datatype Lists = Lists(
    fixes: map<string, Key>, densityFixes: map<string, Key>, pieceFixes: map<string, Option<Key>>,
    neverLend: seq<string>)

  datatype UsdaCode = Ndb(value: string) | Fdc(value: string)

  datatype Codes = Codes(ciqual: seq<string>, usda: seq<UsdaCode>, ciqualOther: seq<string>)

  datatype TaxonomyName = TaxonomyName(name: Name, locale: Option<string>)

  datatype Entry = Entry(id: string, names: seq<TaxonomyName>, nutrition: Option<Codes>)

  function ByKey(foods: seq<Food>): map<Key, Food> {
    if foods == [] then map[]
    else ByKey(foods[..|foods| - 1])[KeyOf(foods[|foods| - 1]) := foods[|foods| - 1]]
  }

  lemma {:induction false} ByKeyIs(foods: seq<Food>, key: Key)
    ensures key in ByKey(foods) <==> exists k: nat :: k < |foods| && KeyOf(foods[k]) == key
    ensures forall k: nat :: Resolves(foods, key, k) ==> key in ByKey(foods) && ByKey(foods)[key] == foods[k]
  {
    if foods != [] {
      var n := |foods| - 1;
      ByKeyIs(foods[..n], key);
      if key in ByKey(foods[..n]) {
        var k: nat :| k < n && KeyOf(foods[..n][k]) == key;
        assert KeyOf(foods[k]) == key;
      }
      forall k: nat | Resolves(foods, key, k) ensures key in ByKey(foods) && ByKey(foods)[key] == foods[k] {
        if k < n {
          assert Resolves(foods[..n], key, k);
          assert KeyOf(foods[n]) != key;
        }
      }
      if k: nat :| k < |foods| && KeyOf(foods[k]) == key {
        assert k < n ==> KeyOf(foods[..n][k]) == key;
      }
    }
  }

  function NdbNumbers(foods: seq<Food>): set<string> {
    set food | food in foods && food.ndb.Some? && food.ndb.value != "" :: food.ndb.value
  }

  predicate CiqualHas(code: string, byKey: map<Key, Food>) {
    (Ciqual, code) in byKey || (Ciqual2020, code) in byKey || (Calnut, code) in byKey
  }

  predicate UsdaHas(code: UsdaCode, byKey: map<Key, Food>, byNdb: set<string>) {
    match code case Ndb(value) => value in byNdb case Fdc(value) => (Usda, value) in byKey
  }

  /** An entry needs no match where one of its own codes is that of a food in the table. */
  predicate NumbersFromCodes(codes: Option<Codes>, byKey: map<Key, Food>, byNdb: set<string>) {
    && codes.Some?
    && ((exists code | code in codes.value.ciqual :: CiqualHas(code, byKey))
        || (exists code | code in codes.value.usda :: UsdaHas(code, byKey, byNdb))
        || (exists code | code in codes.value.ciqualOther :: CiqualHas(code, byKey)))
  }

  // ----- what makes a build fail

  datatype Problem =
    | FixWithoutFood(id: string, key: Key)
    | FixWithoutEntry(id: string)
    | NoUsdaDensity(id: string, key: Key)
    | DensityFixWithoutEntry(id: string)
    | NoPieceWeight(id: string, key: Key)
    | PieceFixWithoutEntry(id: string)
    | LenderWithoutEntry(id: string)

  predicate Positive(amount: Option<real>) {
    amount.Some? && amount.value != 0.0
  }

  predicate HasUsdaDensity(key: Key, byKey: map<Key, Food>) {
    key.0.Usda? && key in byKey && Positive(byKey[key].density)
  }

  predicate HasPieceWeight(key: Key, byKey: map<Key, Food>) {
    key in byKey && Positive(byKey[key].pieceWeight)
  }

  function Problems(lists: Lists, byKey: map<Key, Food>, ids: set<string>): set<Problem> {
    (set id | id in lists.fixes && lists.fixes[id] !in byKey :: FixWithoutFood(id, lists.fixes[id]))
    + (set id | id in lists.fixes && id !in ids :: FixWithoutEntry(id))
    + (set id | id in lists.densityFixes && !HasUsdaDensity(lists.densityFixes[id], byKey) ::
         NoUsdaDensity(id, lists.densityFixes[id]))
    + (set id | id in lists.densityFixes && id !in ids :: DensityFixWithoutEntry(id))
    + (set id | id in lists.pieceFixes && lists.pieceFixes[id].Some? &&
         !HasPieceWeight(lists.pieceFixes[id].value, byKey) ::
         NoPieceWeight(id, lists.pieceFixes[id].value))
    + (set id | id in lists.pieceFixes && id !in ids :: PieceFixWithoutEntry(id))
    + (set id | id in lists.neverLend && id !in ids :: LenderWithoutEntry(id))
  }

  function IdsOf(entries: seq<Entry>): set<string> {
    set entry | entry in entries :: entry.id
  }

  // ----- the name matches

  /** The foods of some datasets, in their order. */
  function OfDatasets(foods: seq<Food>, datasets: set<Dataset>): (r: seq<Food>)
    ensures forall food :: food in r <==> food in foods && food.dataset in datasets
  {
    if foods == [] then []
    else if foods[0].dataset in datasets then [foods[0]] + OfDatasets(foods[1..], datasets)
    else OfDatasets(foods[1..], datasets)
  }

  /** CIQUAL, then USDA, then CoFID. */
  function NameSources(foods: seq<Food>): (r: seq<seq<Food>>)
    ensures forall s, food :: 0 <= s < |r| && food in r[s] ==> food in foods && !food.dataset.Calnut?
  {
    [OfDatasets(foods, {Ciqual, Ciqual2020}), OfDatasets(foods, {Usda}), OfDatasets(foods, {Cofid})]
  }

  /** An entry's names in English or in every language. */
  function English(names: seq<TaxonomyName>): (r: seq<Name>)
    ensures forall name :: name in r <==>
      TaxonomyName(name, Some("en")) in names || TaxonomyName(name, None) in names
  {
    if names == [] then []
    else if names[0].locale == Some("en") || names[0].locale.None? then [names[0].name] + English(names[1..])
    else English(names[1..])
  }

  /** What an entry is matched to: nothing where a fix or its codes come first. */
  function MatchOf(entry: Entry, fixes: map<string, Key>, foods: seq<Food>): Option<Food> {
    if entry.id in fixes || NumbersFromCodes(entry.nutrition, ByKey(foods), NdbNumbers(foods)) then None
    else MatchFrom(English(entry.names), NameSources(foods), Exact, 0)
  }

  function NamesOf(entries: seq<Entry>, fixes: map<string, Key>, foods: seq<Food>): map<string, Key> {
    if entries == [] then map[]
    else
      var last := entries[|entries| - 1];
      var before := NamesOf(entries[..|entries| - 1], fixes, foods);
      var food := MatchOf(last, fixes, foods);
      if food.Some? then before[last.id := KeyOf(food.value)] else before
  }

  // ----- the build

  datatype Table = Table(
    foods: seq<Food>, fixes: map<string, Key>, densityFixes: map<string, Key>, pieceFixes: map<string, Option<Key>>,
    names: map<string, Key>, neverLend: seq<string>)

  function Built(sources: Sources, lists: Lists, entries: seq<Entry>): Result<Table, set<Problem>> {
    var foods := TableFoods(sources);
    var problems := Problems(lists, ByKey(foods), IdsOf(entries));
    if problems != {} then Err(problems)
    else
      Ok(Table(foods, lists.fixes, lists.densityFixes, lists.pieceFixes,
               NamesOf(entries, lists.fixes, foods), lists.neverLend))
  }

  method BuildSourceTable(sources: Sources, lists: Lists, entries: seq<Entry>) returns (r: Result<Table, set<Problem>>)
    ensures r == Built(sources, lists, entries)
  {
    var foods := WithoutAmbiguousCodes(Gathered(sources));
    var byKey, byNdb := ByKey(foods), NdbNumbers(foods);
    var problems := Problems(lists, byKey, IdsOf(entries));
    if problems != {} {
      return Err(problems);
    }
    var indexes := IndexSources(foods);
    var names: map<string, Key> := map[];
    var i := 0;
    while i < |entries|
      invariant i <= |entries| && names == NamesOf(entries[..i], lists.fixes, foods)
    {
      assert entries[..i + 1][..i] == entries[..i];
      var entry := entries[i];
      if entry.id !in lists.fixes && !NumbersFromCodes(entry.nutrition, byKey, byNdb) {
        var food := MatchByName(English(entry.names), indexes, NameSources(foods));
        if food.Some? {
          names := names[entry.id := KeyOf(food.value)];
        }
      }
      i := i + 1;
    }
    assert entries[..i] == entries;
    r := Ok(Table(foods, lists.fixes, lists.densityFixes, lists.pieceFixes, names, lists.neverLend));
  }

  method IndexSources(foods: seq<Food>) returns (indexes: seq<Index>)
    ensures Indexes(indexes, NameSources(foods))
  {
    var ciqual := IndexByName(OfDatasets(foods, {Ciqual, Ciqual2020}));
    var usda := IndexByName(OfDatasets(foods, {Usda}));
    var cofid := IndexByName(OfDatasets(foods, {Cofid}));
    indexes := [ciqual, usda, cofid];
  }

  // ----- what a table that is built holds

  /** A key names exactly one food of the table. */
  ghost predicate NamesOne(foods: seq<Food>, key: Key) {
    exists k: nat :: Resolves(foods, key, k)
  }

  ghost predicate UsdaWithDensity(foods: seq<Food>, key: Key) {
    exists k: nat ::
      Resolves(foods, key, k) && foods[k].dataset.Usda? && foods[k].density.Some? && foods[k].density.value != 0.0
  }

  ghost predicate WithPieceWeight(foods: seq<Food>, key: Key) {
    exists k: nat ::
      Resolves(foods, key, k) && foods[k].pieceWeight.Some? && foods[k].pieceWeight.value != 0.0
  }

  /** Looking a key up in a table's foods finds the one food it names. */
  lemma LookupIs(sources: Sources, key: Key)
    ensures var foods := TableFoods(sources);
      && (key in ByKey(foods) <==> NamesOne(foods, key))
      && (HasUsdaDensity(key, ByKey(foods)) <==> UsdaWithDensity(foods, key))
      && (HasPieceWeight(key, ByKey(foods)) <==> WithPieceWeight(foods, key))
  {
    var foods := TableFoods(sources);
    ByKeyIs(foods, key);
    KeptExactly(sources);
    if key in ByKey(foods) {
      var k: nat :| k < |foods| && KeyOf(foods[k]) == key;
      assert Resolves(foods, KeyOf(foods[k]), k);
    }
    if k: nat :| Resolves(foods, key, k) {
      assert ByKey(foods)[key] == foods[k];
    }
  }

  /** What the lists must say of the table's foods and the taxonomy's entries. */
  ghost predicate ListsHold(lists: Lists, foods: seq<Food>, ids: set<string>) {
    && (forall id | id in lists.fixes :: id in ids && NamesOne(foods, lists.fixes[id]))
    && (forall id | id in lists.densityFixes :: id in ids && UsdaWithDensity(foods, lists.densityFixes[id]))
    && (forall id | id in lists.pieceFixes ::
          id in ids && (lists.pieceFixes[id].Some? ==> WithPieceWeight(foods, lists.pieceFixes[id].value)))
    && (forall id | id in lists.neverLend :: id in ids)
  }

  predicate ListsHoldIn(lists: Lists, byKey: map<Key, Food>, ids: set<string>) {
    && (forall id | id in lists.fixes :: id in ids && lists.fixes[id] in byKey)
    && (forall id | id in lists.densityFixes :: id in ids && HasUsdaDensity(lists.densityFixes[id], byKey))
    && (forall id | id in lists.pieceFixes ::
          id in ids && (lists.pieceFixes[id].Some? ==> HasPieceWeight(lists.pieceFixes[id].value, byKey)))
    && (forall id | id in lists.neverLend :: id in ids)
  }

  lemma ProblemsExactly(lists: Lists, byKey: map<Key, Food>, ids: set<string>)
    ensures Problems(lists, byKey, ids) == {} <==> ListsHoldIn(lists, byKey, ids)
  {
    var problems := Problems(lists, byKey, ids);
    if problems == {} {
      forall id | id in lists.fixes ensures id in ids && lists.fixes[id] in byKey {
        assert FixWithoutEntry(id) !in problems && FixWithoutFood(id, lists.fixes[id]) !in problems;
      }
      forall id | id in lists.densityFixes ensures id in ids && HasUsdaDensity(lists.densityFixes[id], byKey) {
        assert DensityFixWithoutEntry(id) !in problems && NoUsdaDensity(id, lists.densityFixes[id]) !in problems;
      }
      forall id | id in lists.pieceFixes
        ensures id in ids && (lists.pieceFixes[id].Some? ==> HasPieceWeight(lists.pieceFixes[id].value, byKey))
      {
        assert PieceFixWithoutEntry(id) !in problems;
        assert lists.pieceFixes[id].Some? ==> NoPieceWeight(id, lists.pieceFixes[id].value) !in problems;
      }
      forall id | id in lists.neverLend ensures id in ids {
        assert LenderWithoutEntry(id) !in problems;
      }
    }
  }

  /** A build returns a table exactly when every list holds; otherwise it throws, writing nothing. */
  lemma BuildsExactly(sources: Sources, lists: Lists, entries: seq<Entry>)
    ensures Built(sources, lists, entries).Ok? <==> ListsHold(lists, TableFoods(sources), IdsOf(entries))
  {
    var foods, ids := TableFoods(sources), IdsOf(entries);
    ProblemsExactly(lists, ByKey(foods), ids);
    forall id | id in lists.fixes
      ensures lists.fixes[id] in ByKey(foods) <==> NamesOne(foods, lists.fixes[id])
    {
      LookupIs(sources, lists.fixes[id]);
    }
    forall id | id in lists.densityFixes
      ensures HasUsdaDensity(lists.densityFixes[id], ByKey(foods)) <==> UsdaWithDensity(foods, lists.densityFixes[id])
    {
      LookupIs(sources, lists.densityFixes[id]);
    }
    forall id | id in lists.pieceFixes && lists.pieceFixes[id].Some?
      ensures HasPieceWeight(lists.pieceFixes[id].value, ByKey(foods)) <==>
        WithPieceWeight(foods, lists.pieceFixes[id].value)
    {
      LookupIs(sources, lists.pieceFixes[id].value);
    }
  }

  predicate Matches(entry: Entry, fixes: map<string, Key>, foods: seq<Food>, id: string) {
    entry.id == id && MatchOf(entry, fixes, foods).Some?
  }

  /** An entry whose match names its id in the table, no later entry of that id having one. */
  ghost predicate LastMatched(entries: seq<Entry>, fixes: map<string, Key>, foods: seq<Food>, id: string, k: nat) {
    && k < |entries| && Matches(entries[k], fixes, foods, id)
    && forall j | k < j < |entries| :: !Matches(entries[j], fixes, foods, id)
  }

  lemma LastMatchedBefore(entries: seq<Entry>, fixes: map<string, Key>, foods: seq<Food>, id: string, k: nat)
    requires entries != [] && !Matches(entries[|entries| - 1], fixes, foods, id)
    ensures LastMatched(entries, fixes, foods, id, k) <==> LastMatched(entries[..|entries| - 1], fixes, foods, id, k)
  {
    var before := entries[..|entries| - 1];
    assert forall j | 0 <= j < |before| :: before[j] == entries[j];
  }

  /** The name matches, id by id: that of the last entry of the id that has one, and none where none has. */
  lemma {:induction false} NamesExactly(entries: seq<Entry>, fixes: map<string, Key>, foods: seq<Food>, id: string)
    ensures id in NamesOf(entries, fixes, foods) <==> exists k: nat :: LastMatched(entries, fixes, foods, id, k)
    ensures forall k: nat | LastMatched(entries, fixes, foods, id, k) ::
      id in NamesOf(entries, fixes, foods) &&
      NamesOf(entries, fixes, foods)[id] == KeyOf(MatchOf(entries[k], fixes, foods).value)
  {
    if entries != [] {
      var n := |entries| - 1;
      if Matches(entries[n], fixes, foods, id) {
        assert LastMatched(entries, fixes, foods, id, n);
      } else {
        NamesExactly(entries[..n], fixes, foods, id);
        forall k: nat
          ensures LastMatched(entries, fixes, foods, id, k) <==> LastMatched(entries[..n], fixes, foods, id, k)
        {
          LastMatchedBefore(entries, fixes, foods, id, k);
        }
      }
    }
  }

  /**
   * In a table that is built, every key of a fix, a density fix, a piece fix or a name match
   * names exactly one of its foods; no id is both fixed and matched; and an id is matched
   * only for an entry of the taxonomy that no code gives numbers.
   */
  lemma TableHolds(sources: Sources, lists: Lists, entries: seq<Entry>)
    requires Built(sources, lists, entries).Ok?
    ensures var t := Built(sources, lists, entries).value;
      && t.foods == TableFoods(sources)
      && Lists(t.fixes, t.densityFixes, t.pieceFixes, t.neverLend) == lists
      && ListsHold(Lists(t.fixes, t.densityFixes, t.pieceFixes, t.neverLend), t.foods, IdsOf(entries))
      && t.fixes.Keys !! t.names.Keys
      && (forall id | id in t.names :: NamesOne(t.foods, t.names[id]) && !t.names[id].0.Calnut?)
      && (forall id | id in t.names :: exists k: nat ::
            k < |entries| && entries[k].id == id && IsUncoded(entries[k], t.foods))
      && forall id :: id in t.names <==> exists k: nat :: LastMatched(entries, lists.fixes, t.foods, id, k)
  {
    var t := Built(sources, lists, entries).value;
    BuildsExactly(sources, lists, entries);
    forall id | id in t.names
      ensures id !in t.fixes && NamesOne(t.foods, t.names[id]) && !t.names[id].0.Calnut?
      ensures exists k: nat :: k < |entries| && entries[k].id == id && IsUncoded(entries[k], t.foods)
    {
      NamesExactly(entries, t.fixes, t.foods, id);
      var k: nat :| LastMatched(entries, t.fixes, t.foods, id, k);
      MatchIsKept(sources, entries[k], t.fixes);
      MatchOfExactly(entries[k], t.fixes, t.foods, MatchOf(entries[k], t.fixes, t.foods).value);
      assert entries[k].id == id && IsUncoded(entries[k], t.foods);
    }
    forall id ensures id in t.names <==> exists k: nat :: LastMatched(entries, lists.fixes, t.foods, id, k) {
      NamesExactly(entries, t.fixes, t.foods, id);
    }
  }

  lemma MatchIsKept(sources: Sources, entry: Entry, fixes: map<string, Key>)
    requires MatchOf(entry, fixes, TableFoods(sources)).Some?
    ensures var food := MatchOf(entry, fixes, TableFoods(sources)).value;
      NamesOne(TableFoods(sources), KeyOf(food)) && !food.dataset.Calnut?
  {
    var foods := TableFoods(sources);
    var food := MatchOf(entry, fixes, foods).value;
    var r, p := MatchIsFromFirstPlace(English(entry.names), NameSources(foods), Exact, 0);
    assert food in NameSources(foods)[p] && food in foods;
    var k: nat :| k < |foods| && foods[k] == food;
    KeptExactly(sources);
    assert Resolves(foods, KeyOf(foods[k]), k);
  }

  // ----- in which order

  lemma {:induction false} NamedInOrder(foods: seq<Food>, all: seq<Food>, x: Food, y: Food)
    requires Before(Named(foods, all), x, y)
    ensures Before(foods, x, y)
  {
    var n := |foods| - 1;
    var before := Named(foods[..n], all);
    assert foods == foods[..n] + [foods[n]];
    NamedIs(foods[..n], all);
    BeforeSnoc(foods[..n], foods[n], x, y);
    if Before(before, x, y) {
      NamedInOrder(foods[..n], all, x, y);
    } else {
      BeforeSnoc(before, foods[n], x, y);
    }
  }

  lemma {:induction false} OfDatasetsInOrder(foods: seq<Food>, datasets: set<Dataset>, x: Food, y: Food)
    requires Before(OfDatasets(foods, datasets), x, y)
    ensures Before(foods, x, y)
  {
    assert foods == [foods[0]] + foods[1..];
    BeforeCons(foods[0], foods[1..], x, y);
    if Before(OfDatasets(foods[1..], datasets), x, y) {
      OfDatasetsInOrder(foods[1..], datasets, x, y);
    } else {
      BeforeCons(foods[0], OfDatasets(foods[1..], datasets), x, y);
    }
  }

  lemma {:induction false} OfDatasetsConcat(a: seq<Food>, b: seq<Food>, datasets: set<Dataset>)
    ensures OfDatasets(a + b, datasets) == OfDatasets(a, datasets) + OfDatasets(b, datasets)
  {
    if a == [] {
      assert a + b == b;
    } else {
      ConcatTail(a, b);
      OfDatasetsConcat(a[1..], b, datasets);
      if a[0].dataset in datasets {
        Regroup([a[0]], OfDatasets(a[1..], datasets), OfDatasets(b, datasets));
      }
    }
  }

  lemma {:induction false} OfDatasetsAll(foods: seq<Food>, dataset: Dataset, d: Dataset)
    requires forall food | food in foods :: food.dataset == dataset
    ensures OfDatasets(foods, {d}) == if d == dataset then foods else []
  {
    if foods != [] {
      assert foods[0] in foods && forall food | food in foods[1..] :: food in foods;
      OfDatasetsAll(foods[1..], dataset, d);
    }
  }

  /** Of each dataset, its foods as gathered and in the order it gives them. */
  lemma GatheredByDataset(sources: Sources, d: Dataset)
    requires Sound(sources)
    ensures OfDatasets(Gathered(sources), {d}) ==
      match d
      case Ciqual => AsFoods(Ciqual, sources.ciqual.foods)
      case Ciqual2020 => AsFoods(Ciqual2020, Of2020(sources))
      case Calnut => AsFoods(Calnut, OfCalnut(sources))
      case Usda => sources.usda
      case Cofid => AsFoods(Cofid, sources.cofid)
  {
    var ciqual, ciqual2020 := AsFoods(Ciqual, sources.ciqual.foods), AsFoods(Ciqual2020, Of2020(sources));
    var calnut, cofid := AsFoods(Calnut, OfCalnut(sources)), AsFoods(Cofid, sources.cofid);
    OfDatasetsAll(ciqual, Ciqual, d);
    OfDatasetsNext(ciqual, ciqual2020, Ciqual2020, d);
    OfDatasetsNext(ciqual + ciqual2020, calnut, Calnut, d);
    OfDatasetsNext(ciqual + ciqual2020 + calnut, sources.usda, Usda, d);
    OfDatasetsNext(ciqual + ciqual2020 + calnut + sources.usda, cofid, Cofid, d);
  }

  lemma OfDatasetsNext(before: seq<Food>, next: seq<Food>, dataset: Dataset, d: Dataset)
    requires (forall food | food in next :: food.dataset == dataset) && (d == dataset ==> OfDatasets(before, {d}) == [])
    ensures OfDatasets(before + next, {d}) == if d == dataset then next else OfDatasets(before, {d})
  {
    OfDatasetsConcat(before, next, {d});
    OfDatasetsAll(next, dataset, d);
  }

  /** CIQUAL's current edition, its last one, CALNUT, USDA and CoFID, in that order. */
  function Turn(dataset: Dataset): nat {
    match dataset case Ciqual => 0 case Ciqual2020 => 1 case Calnut => 2 case Usda => 3 case Cofid => 4
  }

  ghost predicate InTurn(foods: seq<Food>) {
    forall i, j | 0 <= i < j < |foods| :: Turn(foods[i].dataset) <= Turn(foods[j].dataset)
  }

  lemma InTurnConcat(a: seq<Food>, b: seq<Food>, dataset: Dataset)
    requires InTurn(a) && forall food | food in a :: Turn(food.dataset) < Turn(dataset)
    requires forall food | food in b :: food.dataset == dataset
    ensures InTurn(a + b) && forall food | food in a + b :: Turn(food.dataset) <= Turn(dataset)
  {
    forall i, j | 0 <= i < j < |a + b|
      ensures Turn((a + b)[i].dataset) <= Turn((a + b)[j].dataset)
    {
      assert if i < |a| then a[i] in a else b[i - |a|] in b;
      assert if j < |a| then a[j] in a else b[j - |a|] in b;
    }
  }

  /** The table's foods are those of each dataset in turn, two of them in the order they were gathered. */
  lemma TableInOrder(sources: Sources)
    requires Sound(sources)
    ensures InOrderOf(TableFoods(sources), Gathered(sources)) && InTurn(Gathered(sources))
  {
    forall x, y | Before(TableFoods(sources), x, y) ensures Before(Gathered(sources), x, y) {
      NamedInOrder(Gathered(sources), Gathered(sources), x, y);
    }
    GatheredInTurn(sources);
  }

  lemma GatheredInTurn(sources: Sources)
    requires Sound(sources)
    ensures InTurn(Gathered(sources))
  {
    var ciqual, ciqual2020 := AsFoods(Ciqual, sources.ciqual.foods), AsFoods(Ciqual2020, Of2020(sources));
    var calnut, cofid := AsFoods(Calnut, OfCalnut(sources)), AsFoods(Cofid, sources.cofid);
    InTurnConcat(ciqual, ciqual2020, Ciqual2020);
    InTurnConcat(ciqual + ciqual2020, calnut, Calnut);
    InTurnConcat(ciqual + ciqual2020 + calnut, sources.usda, Usda);
    InTurnConcat(ciqual + ciqual2020 + calnut + sources.usda, cofid, Cofid);
  }

  /** The three sources of names: which of the foods each holds, each in the foods' order. */
  lemma NameSourcesAre(foods: seq<Food>, s: nat)
    requires s < 3
    ensures |NameSources(foods)| == 3 && InOrderOf(NameSources(foods)[s], foods)
    ensures forall food :: food in NameSources(foods)[s] <==>
      food in foods && match s
                       case 0 => food.dataset.Ciqual? || food.dataset.Ciqual2020?
                       case 1 => food.dataset.Usda?
                       case _ => food.dataset.Cofid?
  {
    var datasets := if s == 0 then {Ciqual, Ciqual2020} else if s == 1 then {Usda} else {Cofid};
    assert NameSources(foods)[s] == OfDatasets(foods, datasets);
    forall x, y | Before(NameSources(foods)[s], x, y) ensures Before(foods, x, y) {
      OfDatasetsInOrder(foods, datasets, x, y);
    }
  }

  /** A name in English, or in every language. */
  predicate IsEnglish(name: TaxonomyName) {
    match name.locale case None => true case Some(locale) => locale == "en"
  }

  lemma {:induction false} EnglishAt(names: seq<TaxonomyName>, i: nat) returns (a: nat)
    requires i < |English(names)|
    ensures a < |names| && IsEnglish(names[a]) && names[a].name == English(names)[i]
  {
    if !IsEnglish(names[0]) {
      a := EnglishAt(names[1..], i);
      a := a + 1;
    } else if i > 0 {
      a := EnglishAt(names[1..], i - 1);
      a := a + 1;
    } else {
      a := 0;
    }
  }

  /** The names an entry is matched by are in the taxonomy's order. */
  lemma {:induction false} EnglishInOrder(names: seq<TaxonomyName>, i: nat, j: nat) returns (a: nat, b: nat)
    requires i < j < |English(names)|
    ensures a < b < |names| && IsEnglish(names[a]) && IsEnglish(names[b])
    ensures names[a].name == English(names)[i] && names[b].name == English(names)[j]
  {
    if IsEnglish(names[0]) && i == 0 {
      b := EnglishAt(names[1..], j - 1);
      a, b := 0, b + 1;
    } else {
      var k := if IsEnglish(names[0]) then 1 else 0;
      a, b := EnglishInOrder(names[1..], i - k, j - k);
      a, b := a + 1, b + 1;
    }
  }

  // ----- whose numbers come from a code

  /** A code of the entry is that of this food, under its dataset or as its NDB number. */
  predicate IsCoded(food: Food, codes: Codes) {
    match food.dataset
    case Usda => Fdc(food.code) in codes.usda || HasNdb(food, codes)
    case Cofid => HasNdb(food, codes)
    case _ => food.code in codes.ciqual || food.code in codes.ciqualOther || HasNdb(food, codes)
  }

  predicate HasNdb(food: Food, codes: Codes) {
    food.ndb.Some? && food.ndb.value != "" && Ndb(food.ndb.value) in codes.usda
  }

  lemma KeyIsThere(foods: seq<Food>, key: Key)
    ensures key in ByKey(foods) <==> exists food :: food in foods && food.dataset == key.0 && food.code == key.1
  {
    ByKeyIs(foods, key);
    if key in ByKey(foods) {
      var k: nat :| k < |foods| && KeyOf(foods[k]) == key;
      assert foods[k] in foods;
    }
    if food :| food in foods && food.dataset == key.0 && food.code == key.1 {
      var k :| 0 <= k < |foods| && foods[k] == food;
      assert KeyOf(foods[k]) == key;
    }
  }

  /** An entry has its numbers from its codes exactly when one of the foods is coded so. */
  lemma NumbersExactly(codes: Option<Codes>, foods: seq<Food>)
    ensures NumbersFromCodes(codes, ByKey(foods), NdbNumbers(foods)) <==>
      codes.Some? && exists food :: food in foods && IsCoded(food, codes.value)
  {
    if NumbersFromCodes(codes, ByKey(foods), NdbNumbers(foods)) {
      var c := codes.value;
      if code :| (code in c.ciqual || code in c.ciqualOther) && CiqualHas(code, ByKey(foods)) {
        KeyIsThere(foods, (Ciqual, code));
        KeyIsThere(foods, (Ciqual2020, code));
        KeyIsThere(foods, (Calnut, code));
      } else {
        var code :| code in c.usda && UsdaHas(code, ByKey(foods), NdbNumbers(foods));
        if code.Fdc? {
          KeyIsThere(foods, (Usda, code.value));
        }
      }
    }
    if codes.Some? {
      if food :| food in foods && IsCoded(food, codes.value) {
        KeyIsThere(foods, KeyOf(food));
        if HasNdb(food, codes.value) {
          assert UsdaHas(Ndb(food.ndb.value), ByKey(foods), NdbNumbers(foods));
        } else if food.dataset.Usda? {
          assert UsdaHas(Fdc(food.code), ByKey(foods), NdbNumbers(foods));
        } else {
          assert CiqualHas(food.code, ByKey(foods));
        }
      }
    }
  }

  ghost predicate IsUncoded(entry: Entry, foods: seq<Food>) {
    entry.nutrition.Some? ==> forall food | food in foods :: !IsCoded(food, entry.nutrition.value)
  }

  /** The first source and rung with a candidate gives this food for the entry's names. */
  ghost predicate IsNamed(entry: Entry, foods: seq<Food>, food: Food) {
    exists r: Rung, p: nat :: Gives(English(entry.names), NameSources(foods), r, p, food)
  }

  lemma NamedExactly(entry: Entry, foods: seq<Food>, food: Food)
    ensures MatchFrom(English(entry.names), NameSources(foods), Exact, 0) == Some(food) <==> IsNamed(entry, foods, food)
  {
    MatchExactly(English(entry.names), NameSources(foods), food);
  }

  /** An entry is matched to a food exactly when it has no fix, no food has its codes, and its names give that food. */
  lemma MatchOfExactly(entry: Entry, fixes: map<string, Key>, foods: seq<Food>, food: Food)
    ensures MatchOf(entry, fixes, foods) == Some(food) <==>
      entry.id !in fixes && IsUncoded(entry, foods) && IsNamed(entry, foods, food)
  {
    NumbersExactly(entry.nutrition, foods);
    NamedExactly(entry, foods, food);
  }

  // ----- what a build that fails says

  /** What is wrong with the lists, in terms of the table's foods and the taxonomy's ids. */
  ghost predicate IsWrong(p: Problem, lists: Lists, foods: seq<Food>, ids: set<string>) {
    match p
    case FixWithoutFood(id, key) => id in lists.fixes && lists.fixes[id] == key && !NamesOne(foods, key)
    case FixWithoutEntry(id) => id in lists.fixes && id !in ids
    case NoUsdaDensity(id, key) =>
      id in lists.densityFixes && lists.densityFixes[id] == key && !UsdaWithDensity(foods, key)
    case DensityFixWithoutEntry(id) => id in lists.densityFixes && id !in ids
    case NoPieceWeight(id, key) =>
      id in lists.pieceFixes && lists.pieceFixes[id] == Some(key) && !WithPieceWeight(foods, key)
    case PieceFixWithoutEntry(id) => id in lists.pieceFixes && id !in ids
    case LenderWithoutEntry(id) => id in lists.neverLend && id !in ids
  }

  lemma ProblemIs(p: Problem, lists: Lists, byKey: map<Key, Food>, ids: set<string>)
    ensures p in Problems(lists, byKey, ids) <==>
      match p
      case FixWithoutFood(id, key) => id in lists.fixes && lists.fixes[id] == key && key !in byKey
      case FixWithoutEntry(id) => id in lists.fixes && id !in ids
      case NoUsdaDensity(id, key) =>
        id in lists.densityFixes && lists.densityFixes[id] == key && !HasUsdaDensity(key, byKey)
      case DensityFixWithoutEntry(id) => id in lists.densityFixes && id !in ids
      case NoPieceWeight(id, key) =>
        id in lists.pieceFixes && lists.pieceFixes[id] == Some(key) && !HasPieceWeight(key, byKey)
      case PieceFixWithoutEntry(id) => id in lists.pieceFixes && id !in ids
      case LenderWithoutEntry(id) => id in lists.neverLend && id !in ids
  {
  }

  /** A build that throws names exactly what is wrong. */
  lemma ErrorNamesExactly(sources: Sources, lists: Lists, entries: seq<Entry>, p: Problem)
    requires Built(sources, lists, entries).Err?
    ensures p in Built(sources, lists, entries).error <==>
      IsWrong(p, lists, TableFoods(sources), IdsOf(entries))
  {
    ProblemIs(p, lists, ByKey(TableFoods(sources)), IdsOf(entries));
    if p.FixWithoutFood? || p.NoUsdaDensity? || p.NoPieceWeight? {
      LookupIs(sources, p.key);
    }
  }
}
