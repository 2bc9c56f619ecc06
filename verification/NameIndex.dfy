/**
 * Finding the food an entry's names stand for: each source indexed by two keys,
 * and the search over rungs and sources, in that order of precedence.
 */
module NameIndex {
  import opened Basics

  datatype Dataset = Ciqual | Ciqual2020 | Calnut | Usda | Cofid

  /** A name with its two keys, folded and normalised; the empty key indexes nothing. */
  datatype Name = Name(text: string, exact: string, normalised: string)

  datatype Food = Food(
    dataset: Dataset, code: string, name: Name, kcal: real,
    pieceWeight: Option<real>, density: Option<real>, ndb: Option<string>)

  datatype Rung = Exact | Normalised

  function NameKey(rung: Rung, name: Name): string {
    match rung case Exact => name.exact case Normalised => name.normalised
  }

  function FoodKey(rung: Rung, food: Food): string {
    NameKey(rung, food.name)
  }

  type Bucket = map<string, seq<Food>>

  datatype Index = Index(exact: Bucket, normalised: Bucket)

  function BucketOf(index: Index, rung: Rung): Bucket {
    match rung case Exact => index.exact case Normalised => index.normalised
  }

  function Get(bucket: Bucket, key: string): seq<Food> {
    if key in bucket then bucket[key] else []
  }

  // ----- sequences without repeats, in order of first occurrence

  function AddNew<T(==)>(s: seq<T>, x: T): seq<T> {
    if x in s then s else s + [x]
  }

  function Distinct<T(==)>(s: seq<T>): seq<T> {
    if s == [] then [] else AddNew(Distinct(s[..|s| - 1]), s[|s| - 1])
  }

  lemma {:induction false} DistinctSame<T>(s: seq<T>)
    ensures forall x :: x in Distinct(s) <==> x in s
    ensures s != [] ==> Distinct(s) != [] && Distinct(s)[0] == s[0]
    ensures forall i, j :: 0 <= i < j < |Distinct(s)| ==> Distinct(s)[i] != Distinct(s)[j]
  {
    if s != [] {
      var n := |s| - 1;
      DistinctSame(s[..n]);
      assert s == s[..n] + [s[n]];
      assert n > 0 ==> s[..n] != [] && s[..n][0] == s[0];
    }
  }

  // ----- the straight scan

  /** The foods of a source under one key, each once, in the source's order. */
  function Under(foods: seq<Food>, rung: Rung, key: string): seq<Food> {
    if foods == [] then []
    else
      var last := foods[|foods| - 1];
      var before := Under(foods[..|foods| - 1], rung, key);
      if FoodKey(rung, last) == key then AddNew(before, last) else before
  }

  function KeysOf(names: seq<Name>, rung: Rung): seq<string> {
    if names == [] then []
    else
      var last := NameKey(rung, names[|names| - 1]);
      var before := KeysOf(names[..|names| - 1], rung);
      if last == "" then before else AddNew(before, last)
  }

  /** The candidates a source gives by a straight scan of its foods, key by key. */
  function Scan(foods: seq<Food>, rung: Rung, keys: seq<string>): seq<Food> {
    if keys == [] then []
    else Scan(foods, rung, keys[..|keys| - 1]) + Under(foods, rung, keys[|keys| - 1])
  }

  // ----- calories

  function High(foods: seq<Food>): real
    requires foods != []
  {
    if |foods| == 1 then foods[0].kcal
    else
      var rest := High(foods[1..]);
      if foods[0].kcal >= rest then foods[0].kcal else rest
  }

  function Low(foods: seq<Food>): real
    requires foods != []
  {
    if |foods| == 1 then foods[0].kcal
    else
      var rest := Low(foods[1..]);
      if foods[0].kcal <= rest then foods[0].kcal else rest
  }

  /** How far calories may lie apart and still be one answer: a tenth of the higher, or 15. */
  function Allowance(kcal: real): real {
    if kcal * 0.1 >= 15.0 then kcal * 0.1 else 15.0
  }

  predicate CaloriesAgree(foods: seq<Food>) {
    foods != [] ==> High(foods) - Low(foods) <= Allowance(High(foods))
  }

  /** Two foods agree when the gap between them is at most 15, or a tenth of the higher. */
  predicate PairAgrees(a: Food, b: Food) {
    var (high, low) := if a.kcal >= b.kcal then (a.kcal, b.kcal) else (b.kcal, a.kcal);
    high - low <= 15.0 || 10.0 * (high - low) <= high
  }

  /** Where the highest and the lowest are found; all others lie between them. */
  lemma {:induction false} Extremes(foods: seq<Food>) returns (h: nat, l: nat)
    requires foods != []
    ensures h < |foods| && foods[h].kcal == High(foods)
    ensures l < |foods| && foods[l].kcal == Low(foods)
    ensures forall i :: 0 <= i < |foods| ==> Low(foods) <= foods[i].kcal <= High(foods)
    decreases |foods|
  {
    h, l := 0, 0;
    if |foods| > 1 {
      var rest := foods[1..];
      var h', l' := Extremes(rest);
      assert forall i :: 0 < i < |foods| ==> foods[i] == rest[i - 1];
      h := if foods[0].kcal >= High(rest) then 0 else h' + 1;
      l := if foods[0].kcal <= Low(rest) then 0 else l' + 1;
    }
  }

  /** The test on the highest and the lowest holds exactly when every pair of candidates agrees. */
  lemma AgreeExactlyInPairs(foods: seq<Food>)
    requires forall i :: 0 <= i < |foods| ==> foods[i].kcal >= 0.0
    ensures CaloriesAgree(foods) <==>
      forall i, j :: 0 <= i < |foods| && 0 <= j < |foods| ==> PairAgrees(foods[i], foods[j])
  {
    if foods != [] {
      var h, l := Extremes(foods);
      if CaloriesAgree(foods) {
        forall i, j | 0 <= i < |foods| && 0 <= j < |foods| ensures PairAgrees(foods[i], foods[j]) {
          AgreeWithin(foods[i].kcal, foods[j].kcal, High(foods), Low(foods));
          AgreeWithin(foods[j].kcal, foods[i].kcal, High(foods), Low(foods));
        }
      } else {
        assert !PairAgrees(foods[h], foods[l]);
      }
    }
  }

  lemma AgreeWithin(a: real, b: real, high: real, low: real)
    requires 0.0 <= low <= a <= high && low <= b <= high && high - low <= Allowance(high)
    ensures a - b <= Allowance(a)
  {
  }

  // ----- the specification of a match

  /** The first place with a candidate is the one that answers, and its answer may be none. */
  function Answer(candidates: seq<Food>): Option<Food>
    requires candidates != []
  {
    if CaloriesAgree(candidates) then Some(candidates[0]) else None
  }

  function MatchFrom(names: seq<Name>, sources: seq<seq<Food>>, rung: Rung, s: nat): Option<Food>
    requires s <= |sources|
    decreases if rung.Exact? then 1 else 0, |sources| - s
  {
    if s < |sources| then
      var candidates := Scan(sources[s], rung, KeysOf(names, rung));
      if candidates != [] then Answer(candidates) else MatchFrom(names, sources, rung, s + 1)
    else if rung.Exact? then MatchFrom(names, sources, Normalised, 0)
    else None
  }

  // ----- the index

  /** A bucket holds, under every key but the empty one, what the scan finds. */
  ghost predicate Holds(bucket: Bucket, foods: seq<Food>, rung: Rung) {
    && "" !in bucket
    && forall key :: key != "" ==> Get(bucket, key) == Under(foods, rung, key)
  }

  /** Index one more food under a key. */
  method Add(bucket: Bucket, key: string, food: Food) returns (r: Bucket)
    ensures r == if key == "" then bucket else bucket[key := AddNew(Get(bucket, key), food)]
  {
    if key == "" {
      return bucket;
    }
    var list := Get(bucket, key);
    if food !in list {
      list := list + [food];
    }
    r := bucket[key := list];
  }

  lemma AddHolds(bucket: Bucket, foods: seq<Food>, rung: Rung, food: Food)
    requires Holds(bucket, foods, rung)
    ensures var key := FoodKey(rung, food);
      Holds(if key == "" then bucket else bucket[key := AddNew(Get(bucket, key), food)], foods + [food], rung)
  {
    var key, more := FoodKey(rung, food), foods + [food];
    assert more[..|foods|] == foods && more[|foods|] == food;
    var r := if key == "" then bucket else bucket[key := AddNew(Get(bucket, key), food)];
    forall k | k != "" ensures Get(r, k) == Under(more, rung, k) {
      assert Get(bucket, k) == Under(foods, rung, k);
    }
  }

  method IndexByName(foods: seq<Food>) returns (index: Index)
    ensures Holds(index.exact, foods, Exact) && Holds(index.normalised, foods, Normalised)
  {
    var exact: Bucket, normalised: Bucket := map[], map[];
    var i := 0;
    while i < |foods|
      invariant i <= |foods|
      invariant Holds(exact, foods[..i], Exact) && Holds(normalised, foods[..i], Normalised)
    {
      AddHolds(exact, foods[..i], Exact, foods[i]);
      AddHolds(normalised, foods[..i], Normalised, foods[i]);
      assert foods[..i + 1] == foods[..i] + [foods[i]];
      exact := Add(exact, foods[i].name.exact, foods[i]);
      normalised := Add(normalised, foods[i].name.normalised, foods[i]);
      i := i + 1;
    }
    assert foods[..i] == foods;
    index := Index(exact, normalised);
  }

  ghost predicate Indexes(indexes: seq<Index>, sources: seq<seq<Food>>) {
    && |indexes| == |sources|
    && forall s :: 0 <= s < |sources| ==>
         Holds(indexes[s].exact, sources[s], Exact) && Holds(indexes[s].normalised, sources[s], Normalised)
  }

  // ----- the search

  method CollectKeys(names: seq<Name>, rung: Rung) returns (keys: seq<string>)
    ensures keys == KeysOf(names, rung)
    ensures forall k :: k in keys ==> k != ""
  {
    keys := [];
    var i := 0;
    while i < |names|
      invariant i <= |names| && keys == KeysOf(names[..i], rung)
      invariant forall k :: k in keys ==> k != ""
    {
      assert names[..i + 1][..i] == names[..i];
      var key := NameKey(rung, names[i]);
      if key != "" && key !in keys {
        keys := keys + [key];
      }
      i := i + 1;
    }
    assert names[..i] == names;
  }

  /** What an index gives for the keys, each candidate once. */
  method Candidates(bucket: Bucket, keys: seq<string>, ghost foods: seq<Food>, ghost rung: Rung)
    returns (candidates: seq<Food>)
    requires Holds(bucket, foods, rung) && forall k :: k in keys ==> k != ""
    ensures candidates == Distinct(Scan(foods, rung, keys))
  {
    var all := [];
    var k := 0;
    while k < |keys|
      invariant k <= |keys| && all == Scan(foods, rung, keys[..k])
    {
      assert keys[..k + 1][..k] == keys[..k];
      assert keys[k] in keys;
      assert Get(bucket, keys[k]) == Under(foods, rung, keys[k]);
      all := all + Get(bucket, keys[k]);
      k := k + 1;
    }
    assert keys[..k] == keys;
    candidates := [];
    var i := 0;
    while i < |all|
      invariant i <= |all| && candidates == Distinct(all[..i])
    {
      assert all[..i + 1][..i] == all[..i];
      candidates := AddNew(candidates, all[i]);
      i := i + 1;
    }
    assert all[..i] == all;
  }

  /** Repeats among the candidates change no answer. */
  lemma AnswerOfDistinct(candidates: seq<Food>)
    requires candidates != []
    ensures Distinct(candidates) != [] && Answer(Distinct(candidates)) == Answer(candidates)
  {
    DistinctSame(candidates);
    SameExtremes(candidates, Distinct(candidates));
  }

  lemma SameExtremes(a: seq<Food>, b: seq<Food>)
    requires a != [] && b != [] && forall x :: x in a <==> x in b
    ensures High(a) == High(b) && Low(a) == Low(b)
  {
    ExtremesWithin(a, b);
    ExtremesWithin(b, a);
  }

  lemma ExtremesWithin(a: seq<Food>, b: seq<Food>)
    requires a != [] && b != [] && forall x :: x in a ==> x in b
    ensures Low(b) <= Low(a) && High(a) <= High(b)
  {
    var h, l := Extremes(a);
    var _, _ := Extremes(b);
    assert a[h] in b && a[l] in b;
  }

  /**
   * The sources in turn, by exact keys first and by normalised keys after. Looking up
   * through the maps finds what a straight scan of the sources finds.
   */
  method MatchByName(names: seq<Name>, indexes: seq<Index>, ghost sources: seq<seq<Food>>) returns (r: Option<Food>)
    requires Indexes(indexes, sources)
    ensures r == MatchFrom(names, sources, Exact, 0)
  {
    var rungs := [Exact, Normalised];
    var k := 0;
    while k < |rungs|
      invariant k <= |rungs|
      invariant MatchFrom(names, sources, Exact, 0) ==
        if k < |rungs| then MatchFrom(names, sources, rungs[k], 0) else None
    {
      var rung := rungs[k];
      var keys := CollectKeys(names, rung);
      var s := 0;
      while s < |indexes|
        invariant s <= |indexes|
        invariant MatchFrom(names, sources, Exact, 0) == MatchFrom(names, sources, rung, s)
      {
        var candidates := Candidates(BucketOf(indexes[s], rung), keys, sources[s], rung);
        DistinctSame(Scan(sources[s], rung, keys));
        if candidates != [] {
          AnswerOfDistinct(Scan(sources[s], rung, keys));
          return Answer(candidates);
        }
        s := s + 1;
      }
      k := k + 1;
    }
    return None;
  }

  // ----- what a match means

  lemma {:induction false} UnderIs(foods: seq<Food>, rung: Rung, key: string)
    ensures forall food :: food in Under(foods, rung, key) <==> food in foods && FoodKey(rung, food) == key
  {
    if foods != [] {
      UnderIs(foods[..|foods| - 1], rung, key);
      assert foods == foods[..|foods| - 1] + [foods[|foods| - 1]];
    }
  }

  lemma {:induction false} ScanIs(foods: seq<Food>, rung: Rung, keys: seq<string>)
    ensures forall food :: food in Scan(foods, rung, keys) <==> food in foods && FoodKey(rung, food) in keys
  {
    if keys != [] {
      var n := |keys| - 1;
      ScanIs(foods, rung, keys[..n]);
      UnderIs(foods, rung, keys[n]);
      assert keys == keys[..n] + [keys[n]];
    }
  }

  /** A source shares a key with the entry on a rung. */
  ghost predicate HasCandidate(names: seq<Name>, foods: seq<Food>, rung: Rung) {
    exists food :: food in foods && FoodKey(rung, food) in KeysOf(names, rung)
  }

  lemma ScanIsEmpty(names: seq<Name>, foods: seq<Food>, rung: Rung)
    ensures HasCandidate(names, foods, rung) <==> Scan(foods, rung, KeysOf(names, rung)) != []
  {
    var candidates := Scan(foods, rung, KeysOf(names, rung));
    ScanIs(foods, rung, KeysOf(names, rung));
    if candidates != [] {
      assert candidates[0] in candidates;
    }
  }

  /** Place of a rung and source in the order of precedence. */
  predicate Earlier(rung: Rung, s: nat, rung': Rung, s': nat) {
    (rung.Exact? && rung'.Normalised?) || (rung == rung' && s < s')
  }

  ghost predicate NoneBefore(names: seq<Name>, sources: seq<seq<Food>>, rung: Rung, s: nat) {
    forall r: Rung, i: nat :: i < |sources| && Earlier(r, i, rung, s) ==> !HasCandidate(names, sources[i], r)
  }

  /** The place that decides: it has a candidate, and no place before it has one. */
  ghost predicate FirstPlace(names: seq<Name>, sources: seq<seq<Food>>, rung: Rung, s: nat) {
    s < |sources| && HasCandidate(names, sources[s], rung) && NoneBefore(names, sources, rung, s)
  }

  /** The first place decides, whatever comes after it, even when its candidates answer none. */
  lemma {:induction false} FirstPlaceDecides(
      names: seq<Name>, sources: seq<seq<Food>>, rung: Rung, s: nat, r: Rung, p: nat)
    requires FirstPlace(names, sources, r, p) && s <= |sources| && !Earlier(r, p, rung, s)
    ensures Scan(sources[p], r, KeysOf(names, r)) != []
    ensures MatchFrom(names, sources, rung, s) == Answer(Scan(sources[p], r, KeysOf(names, r)))
    decreases if rung.Exact? then 1 else 0, |sources| - s
  {
    ScanIsEmpty(names, sources[p], r);
    if s < |sources| {
      ScanIsEmpty(names, sources[s], rung);
      if rung != r || s != p {
        assert Earlier(rung, s, r, p);
        FirstPlaceDecides(names, sources, rung, s + 1, r, p);
      }
    } else {
      FirstPlaceDecides(names, sources, Normalised, 0, r, p);
    }
  }

  /**
   * Every match comes from the first place: a food of that source under a key of the entry, the
   * candidates agreeing.
   */
  lemma {:induction false} MatchIsFromFirstPlace(names: seq<Name>, sources: seq<seq<Food>>, rung: Rung, s: nat)
      returns (r: Rung, p: nat)
    requires s <= |sources| && MatchFrom(names, sources, rung, s).Some?
    requires NoneBefore(names, sources, rung, s)
    ensures FirstPlace(names, sources, r, p) && CaloriesAgree(Scan(sources[p], r, KeysOf(names, r)))
    ensures var food := MatchFrom(names, sources, rung, s).value;
      food in sources[p] && FoodKey(r, food) in KeysOf(names, r)
    decreases if rung.Exact? then 1 else 0, |sources| - s
  {
    if s == |sources| {
      r, p := MatchIsFromFirstPlace(names, sources, Normalised, 0);
    } else {
      ScanIsEmpty(names, sources[s], rung);
      var candidates := Scan(sources[s], rung, KeysOf(names, rung));
      if candidates == [] {
        r, p := MatchIsFromFirstPlace(names, sources, rung, s + 1);
      } else {
        AnswerIsCandidate(names, sources[s], rung);
        r, p := rung, s;
      }
    }
  }

  lemma AnswerIsCandidate(names: seq<Name>, foods: seq<Food>, rung: Rung)
    requires Scan(foods, rung, KeysOf(names, rung)) != []
    ensures var food := Scan(foods, rung, KeysOf(names, rung))[0];
      food in foods && FoodKey(rung, food) in KeysOf(names, rung)
  {
    ScanIs(foods, rung, KeysOf(names, rung));
    assert Scan(foods, rung, KeysOf(names, rung))[0] in Scan(foods, rung, KeysOf(names, rung));
  }

  /** The first place gives this food: the first it finds, its candidates agreeing. */
  ghost predicate Gives(names: seq<Name>, sources: seq<seq<Food>>, rung: Rung, s: nat, food: Food) {
    && FirstPlace(names, sources, rung, s)
    && var candidates := Scan(sources[s], rung, KeysOf(names, rung));
       candidates != [] && CaloriesAgree(candidates) && candidates[0] == food
  }

  /** An entry matches a food exactly when the first place with any candidate gives it. */
  lemma MatchExactly(names: seq<Name>, sources: seq<seq<Food>>, food: Food)
    ensures MatchFrom(names, sources, Exact, 0) == Some(food) <==> exists r, p :: Gives(names, sources, r, p, food)
  {
    if MatchFrom(names, sources, Exact, 0) == Some(food) {
      var r, p := MatchIsFromFirstPlace(names, sources, Exact, 0);
      FirstPlaceDecides(names, sources, Exact, 0, r, p);
      assert Gives(names, sources, r, p, food);
    }
    if r, p :| Gives(names, sources, r, p, food) {
      FirstPlaceDecides(names, sources, Exact, 0, r, p);
    }
  }

  // ----- what is tried first, said of the names and the foods themselves

  /** A name and a food have a key of this rung in common. */
  predicate Share(name: Name, food: Food, rung: Rung) {
    match rung
    case Exact => name.exact != "" && name.exact == food.name.exact
    case Normalised => name.normalised != "" && name.normalised == food.name.normalised
  }

  /** The first of the names with this key. */
  ghost predicate FirstWith(names: seq<Name>, rung: Rung, a: nat, key: string) {
    && a < |names| && NameKey(rung, names[a]) == key
    && forall c | 0 <= c < a :: NameKey(rung, names[c]) != key
  }

  lemma FirstWithBefore(names: seq<Name>, rung: Rung, a: nat, key: string)
    requires names != [] && FirstWith(names, rung, a, key)
    ensures a < |names| - 1 ==> FirstWith(names[..|names| - 1], rung, a, key)
  {
  }

  lemma {:induction false} KeysHave(names: seq<Name>, rung: Rung, key: string)
    ensures key in KeysOf(names, rung) <==> key != "" && exists a: nat :: FirstWith(names, rung, a, key)
  {
    if names != [] {
      var n := |names| - 1;
      KeysHave(names[..n], rung, key);
      if key in KeysOf(names[..n], rung) {
        var a: nat :| FirstWith(names[..n], rung, a, key);
        assert FirstWith(names, rung, a, key);
      } else if key != "" && NameKey(rung, names[n]) == key {
        if c: nat :| c < n && NameKey(rung, names[c]) == key {
          var first := FirstOf(names[..n], rung, c);
          assert false;
        }
        assert FirstWith(names, rung, n, key);
      }
      if a: nat :| FirstWith(names, rung, a, key) {
        FirstWithBefore(names, rung, a, key);
      }
    }
  }

  lemma {:induction false} FirstOf(names: seq<Name>, rung: Rung, c: nat) returns (a: nat)
    requires c < |names|
    ensures a <= c && FirstWith(names, rung, a, NameKey(rung, names[c]))
  {
    a := 0;
    while NameKey(rung, names[a]) != NameKey(rung, names[c])
      invariant a <= c && forall d | 0 <= d < a :: NameKey(rung, names[d]) != NameKey(rung, names[c])
      decreases c - a
    {
      a := a + 1;
    }
  }

  /** A key collected from the names but the last first occurs among those. */
  lemma FirstEarlier(names: seq<Name>, rung: Rung, key: string, a: nat)
    requires names != [] && key in KeysOf(names[..|names| - 1], rung) && FirstWith(names, rung, a, key)
    ensures a < |names| - 1 && FirstWith(names[..|names| - 1], rung, a, key)
  {
    KeysHave(names[..|names| - 1], rung, key);
    var c: nat :| FirstWith(names[..|names| - 1], rung, c, key);
    assert names[..|names| - 1][c] == names[c];
  }

  /** A key that only the last name has first occurs there. */
  lemma FirstLast(names: seq<Name>, rung: Rung, key: string, b: nat)
    requires names != [] && key !in KeysOf(names[..|names| - 1], rung) && key != "" && FirstWith(names, rung, b, key)
    ensures b == |names| - 1
  {
    KeysHave(names[..|names| - 1], rung, key);
    if b < |names| - 1 {
      FirstWithBefore(names, rung, b, key);
    }
  }

  /** The keys looked up: the names' keys of the rung but the empty one, each once, in order of first occurrence. */
  lemma {:induction false} KeysInOrder(names: seq<Name>, rung: Rung, i: nat, j: nat, a: nat, b: nat)
    requires i < j < |KeysOf(names, rung)|
    requires FirstWith(names, rung, a, KeysOf(names, rung)[i]) && FirstWith(names, rung, b, KeysOf(names, rung)[j])
    ensures a < b
  {
    var keys, before := KeysOf(names, rung), KeysOf(names[..|names| - 1], rung);
    assert before <= keys && |keys| <= |before| + 1;
    FirstEarlier(names, rung, keys[i], a);
    if j < |before| {
      FirstEarlier(names, rung, keys[j], b);
      KeysInOrder(names[..|names| - 1], rung, i, j, a, b);
    } else {
      FirstLast(names, rung, keys[j], b);
    }
  }

  /** A source has a candidate on a rung exactly when one of its foods shares a key with one of the names. */
  lemma CandidateExactly(names: seq<Name>, foods: seq<Food>, rung: Rung)
    ensures HasCandidate(names, foods, rung) <==>
      exists name, food :: name in names && food in foods && Share(name, food, rung)
  {
    if food :| food in foods && FoodKey(rung, food) in KeysOf(names, rung) {
      KeysHave(names, rung, FoodKey(rung, food));
      var a: nat :| FirstWith(names, rung, a, FoodKey(rung, food));
      assert names[a] in names && Share(names[a], food, rung);
    }
    if name, food :| name in names && food in foods && Share(name, food, rung) {
      var c: nat :| c < |names| && names[c] == name;
      var a := FirstOf(names, rung, c);
      KeysHave(names, rung, FoodKey(rung, food));
    }
  }

  lemma UnderNone(foods: seq<Food>, rung: Rung, key: string)
    ensures Under(foods, rung, key) == [] <==> forall food | food in foods :: FoodKey(rung, food) != key
  {
    UnderIs(foods, rung, key);
    if Under(foods, rung, key) != [] {
      assert Under(foods, rung, key)[0] in Under(foods, rung, key);
    }
  }

  lemma {:induction false} UnderFirst(foods: seq<Food>, rung: Rung, key: string, f: nat)
    requires f < |foods| && FoodKey(rung, foods[f]) == key
    requires forall g | 0 <= g < f :: FoodKey(rung, foods[g]) != key
    ensures Under(foods, rung, key) != [] && Under(foods, rung, key)[0] == foods[f]
  {
    var n := |foods| - 1;
    if f < n {
      UnderFirst(foods[..n], rung, key, f);
    } else {
      UnderNone(foods[..n], rung, key);
    }
  }

  lemma {:induction false} ScanFirst(foods: seq<Food>, rung: Rung, keys: seq<string>, k: nat)
    requires k < |keys| && NoneUnder(foods, rung, keys[..k])
    ensures Under(foods, rung, keys[k]) <= Scan(foods, rung, keys)
  {
    var n := |keys| - 1;
    if k < n {
      assert keys[..n][..k] == keys[..k] && keys[..n][k] == keys[k];
      ScanFirst(foods, rung, keys[..n], k);
    } else {
      NothingScanned(foods, rung, keys[..n]);
    }
  }

  ghost predicate NoneUnder(foods: seq<Food>, rung: Rung, keys: seq<string>) {
    forall l | 0 <= l < |keys| :: Under(foods, rung, keys[l]) == []
  }

  lemma {:induction false} NothingScanned(foods: seq<Food>, rung: Rung, keys: seq<string>)
    requires NoneUnder(foods, rung, keys)
    ensures Scan(foods, rung, keys) == []
  {
    if keys != [] {
      var n := |keys| - 1;
      assert keys[..n] + [keys[n]] == keys && Under(foods, rung, keys[n]) == [];
      NothingScanned(foods, rung, keys[..n]);
    }
  }

  /** The first name that any food of the source shares a key with, and the first of the foods that do. */
  ghost predicate First(names: seq<Name>, foods: seq<Food>, rung: Rung, i: nat, f: nat) {
    && i < |names| && f < |foods| && Share(names[i], foods[f], rung)
    && (forall g | 0 <= g < f :: !Share(names[i], foods[g], rung))
    && (forall c, food | 0 <= c < i && food in foods :: !Share(names[c], food, rung))
  }

  /** It is that food which a source puts forward, however many others share keys with the names. */
  lemma FirstCandidate(names: seq<Name>, foods: seq<Food>, rung: Rung, i: nat, f: nat)
    requires First(names, foods, rung, i, f)
    ensures Scan(foods, rung, KeysOf(names, rung)) != [] && Scan(foods, rung, KeysOf(names, rung))[0] == foods[f]
  {
    var key, keys := NameKey(rung, names[i]), KeysOf(names, rung);
    assert forall c | 0 <= c < i :: NameKey(rung, names[c]) != key by {
      forall c | 0 <= c < i ensures NameKey(rung, names[c]) != key {
        assert foods[f] in foods && !Share(names[c], foods[f], rung);
      }
    }
    assert FirstWith(names, rung, i, key);
    KeysHave(names, rung, key);
    var k: nat :| k < |keys| && keys[k] == key;
    UnderFirst(foods, rung, key, f);
    forall l | 0 <= l < k ensures Under(foods, rung, keys[l]) == [] {
      KeysHave(names, rung, keys[l]);
      var a: nat :| FirstWith(names, rung, a, keys[l]);
      KeysInOrder(names, rung, l, k, a, i);
      UnderNone(foods, rung, keys[l]);
      assert forall food | food in foods :: !Share(names[a], food, rung);
    }
    assert NoneUnder(foods, rung, keys[..k]);
    ScanFirst(foods, rung, keys, k);
  }

  /** A source and a rung where a food shares a key with a name, none doing so at any place before it. */
  ghost predicate Decides(names: seq<Name>, sources: seq<seq<Food>>, rung: Rung, s: nat) {
    && s < |sources|
    && (exists name, food :: name in names && food in sources[s] && Share(name, food, rung))
    && forall r: Rung, i: nat, name, food |
         i < |sources| && Earlier(r, i, rung, s) && name in names && food in sources[i] :: !Share(name, food, r)
  }

  lemma DecidesIs(names: seq<Name>, sources: seq<seq<Food>>, rung: Rung, s: nat)
    requires Decides(names, sources, rung, s)
    ensures FirstPlace(names, sources, rung, s)
  {
    CandidateExactly(names, sources[s], rung);
    forall r: Rung, i: nat | i < |sources| && Earlier(r, i, rung, s) ensures !HasCandidate(names, sources[i], r) {
      CandidateExactly(names, sources[i], r);
    }
  }

  /** A food shares a key with one of the names. */
  ghost predicate Shares(names: seq<Name>, food: Food, rung: Rung) {
    exists name :: name in names && Share(name, food, rung)
  }

  lemma SharesIs(names: seq<Name>, food: Food, rung: Rung)
    ensures Shares(names, food, rung) <==> FoodKey(rung, food) in KeysOf(names, rung)
  {
    KeysHave(names, rung, FoodKey(rung, food));
    if name :| name in names && Share(name, food, rung) {
      var c: nat :| c < |names| && names[c] == name;
      var a := FirstOf(names, rung, c);
    }
    if a: nat :| FirstWith(names, rung, a, FoodKey(rung, food)) && FoodKey(rung, food) != "" {
      assert names[a] in names && Share(names[a], food, rung);
    }
  }

  /**
   * The match, said without the index: at the first rung and source where any food shares a
   * key with a name, the food put forward is the match if every two foods there that share
   * keys agree, and otherwise there is none.
   */
  lemma MatchMeans(names: seq<Name>, sources: seq<seq<Food>>, rung: Rung, s: nat, i: nat, f: nat)
    requires Decides(names, sources, rung, s) && First(names, sources[s], rung, i, f)
    requires forall food | food in sources[s] :: food.kcal >= 0.0
    ensures MatchFrom(names, sources, Exact, 0) ==
      if forall a, b | a in sources[s] && b in sources[s] && Shares(names, a, rung) && Shares(names, b, rung) ::
        PairAgrees(a, b)
      then Some(sources[s][f]) else None
  {
    var foods := sources[s];
    var candidates := Scan(foods, rung, KeysOf(names, rung));
    DecidesIs(names, sources, rung, s);
    FirstPlaceDecides(names, sources, Exact, 0, rung, s);
    FirstCandidate(names, foods, rung, i, f);
    ScanIs(foods, rung, KeysOf(names, rung));
    forall food ensures food in candidates <==> food in foods && Shares(names, food, rung) {
      SharesIs(names, food, rung);
    }
    assert forall k | 0 <= k < |candidates| :: candidates[k] in candidates;
    AgreeExactlyInPairs(candidates);
  }

  /** With no key shared at any place, there is no match. */
  lemma NoMatch(names: seq<Name>, sources: seq<seq<Food>>)
    requires forall r: Rung, i: nat, food | i < |sources| && food in sources[i] :: !Shares(names, food, r)
    ensures MatchFrom(names, sources, Exact, 0) == None
  {
    if MatchFrom(names, sources, Exact, 0).Some? {
      var r, p := MatchIsFromFirstPlace(names, sources, Exact, 0);
      var food := MatchFrom(names, sources, Exact, 0).value;
      SharesIs(names, food, r);
      assert false;
    }
  }

  lemma FirstShared(names: seq<Name>, foods: seq<Food>, rung: Rung) returns (i: nat, f: nat)
    requires HasCandidate(names, foods, rung)
    ensures First(names, foods, rung, i, f)
  {
    CandidateExactly(names, foods, rung);
    i := 0;
    while forall food | food in foods :: !Share(names[i], food, rung)
      invariant i < |names| && forall c, food | 0 <= c < i && food in foods :: !Share(names[c], food, rung)
      invariant exists c :: i <= c < |names| && exists food :: food in foods && Share(names[c], food, rung)
      decreases |names| - i
    {
      i := i + 1;
    }
    f := 0;
    while !Share(names[i], foods[f], rung)
      invariant f < |foods| && forall g | 0 <= g < f :: !Share(names[i], foods[g], rung)
      invariant exists g :: f <= g < |foods| && Share(names[i], foods[g], rung)
      decreases |foods| - f
    {
      f := f + 1;
    }
  }

  lemma {:induction false} FirstPlaceFrom(names: seq<Name>, sources: seq<seq<Food>>, rung: Rung, s: nat)
      returns (found: bool, r: Rung, p: nat)
    requires s <= |sources| && NoneBefore(names, sources, rung, s)
    ensures found ==> FirstPlace(names, sources, r, p)
    ensures !found ==> forall r: Rung, i: nat | i < |sources| :: !HasCandidate(names, sources[i], r)
    decreases if rung.Exact? then 1 else 0, |sources| - s
  {
    if s < |sources| && HasCandidate(names, sources[s], rung) {
      found, r, p := true, rung, s;
    } else if s < |sources| {
      found, r, p := FirstPlaceFrom(names, sources, rung, s + 1);
    } else if rung.Exact? {
      found, r, p := FirstPlaceFrom(names, sources, Normalised, 0);
    } else {
      found, r, p := false, rung, s;
    }
  }

  /** Either no food of any source shares a key with a name, or some place decides and puts a food forward. */
  lemma DecidedOrUnknown(names: seq<Name>, sources: seq<seq<Food>>)
    ensures
      || (forall r: Rung, i: nat, food | i < |sources| && food in sources[i] :: !Shares(names, food, r))
      || (exists r: Rung, p: nat, i: nat, f: nat :: Decides(names, sources, r, p) && First(names, sources[p], r, i, f))
  {
    var found, r, p := FirstPlaceFrom(names, sources, Exact, 0);
    if found {
      var i, f := FirstShared(names, sources[p], r);
      assert names[i] in names && sources[p][f] in sources[p];
      forall r': Rung, k: nat, name, food |
        k < |sources| && Earlier(r', k, r, p) && name in names && food in sources[k]
        ensures !Share(name, food, r')
      {
        CandidateExactly(names, sources[k], r');
      }
      assert Decides(names, sources, r, p);
    } else {
      forall r: Rung, i: nat, food | i < |sources| && food in sources[i] ensures !Shares(names, food, r) {
        assert !HasCandidate(names, sources[i], r);
        SharesIs(names, food, r);
      }
    }
  }
}
