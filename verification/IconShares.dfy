/**
 * Which foods are drawn and which borrow the icon of an ancestor: a tree decided by its
 * levels, parents before children, against the definition of who lends to whom in the end.
 */
module IconShares {
  import opened Basics

  type Id = string
  type OffId = string

  datatype Node = Node(id: Id, parentId: Option<Id>, offId: Option<OffId>)

  datatype Share = Draw | Borrow

  type Nodes = map<Id, Node>
  type Shares = map<OffId, Share>

  /** How deep the tree is ever walked when a food's level is counted. */
  const MAX_DEPTH: nat := 64

  /** A question put to the decision model: would this food's icon differ from its lender's? */
  datatype Question = Question(food: Id, lender: Id)

  // ----- the tree

  function Parent(nodes: Nodes, id: Id): Option<Id>
    requires id in nodes
  {
    match nodes[id].parentId
    case Some(up) => if up in nodes then Some(up) else None
    case None => None
  }

  /** Whether the walk to the top ends within so many steps. */
  predicate Ends(nodes: Nodes, id: Id, steps: nat)
    requires id in nodes
    decreases steps
  {
    match Parent(nodes, id)
    case None => true
    case Some(up) => steps > 0 && Ends(nodes, up, steps - 1)
  }

  /** The level of a food, counted up to a cap. */
  function Depth(nodes: Nodes, id: Id, cap: nat): nat
    requires id in nodes
    decreases cap
  {
    match Parent(nodes, id)
    case None => 0
    case Some(up) => if cap == 0 then 0 else 1 + Depth(nodes, up, cap - 1)
  }

  /** An acyclic catalogue no deeper than the cap, whose foods have distinct Open Food Facts ids. */
  ghost predicate ValidCatalogue(nodes: Nodes) {
    && (forall id :: id in nodes ==> nodes[id].id == id && Ends(nodes, id, MAX_DEPTH))
    && (forall a, b :: a in nodes && b in nodes && a != b && nodes[a].offId.Some? ==> nodes[a].offId != nodes[b].offId)
  }

  lemma {:induction false} DepthStable(nodes: Nodes, id: Id, a: nat, b: nat)
    requires id in nodes && a <= b && Ends(nodes, id, a)
    ensures Ends(nodes, id, b) && Depth(nodes, id, a) == Depth(nodes, id, b)
    decreases a
  {
    var up := Parent(nodes, id);
    if up.Some? {
      DepthStable(nodes, up.value, a - 1, b - 1);
    }
  }

  /** A food stands one level below its parent. */
  lemma DepthBelowParent(nodes: Nodes, id: Id)
    requires ValidCatalogue(nodes) && id in nodes && Parent(nodes, id).Some?
    ensures Depth(nodes, id, MAX_DEPTH) == Depth(nodes, Parent(nodes, id).value, MAX_DEPTH) + 1
  {
    DepthStable(nodes, Parent(nodes, id).value, MAX_DEPTH - 1, MAX_DEPTH);
  }

  // ----- what is drawn, and who lends

  predicate Drawn(node: Node, icons: set<OffId>, shares: Shares) {
    && node.offId.Some? && node.offId.value != ""
    && (node.offId.value in icons || (node.offId.value in shares && shares[node.offId.value] == Draw))
  }

  /** The nearest ancestor that is drawn. */
  ghost function Lender(nodes: Nodes, id: Id, icons: set<OffId>, shares: Shares): (r: Option<Id>)
    requires ValidCatalogue(nodes) && id in nodes
    ensures r.Some? ==> r.value in nodes && Drawn(nodes[r.value], icons, shares)
    decreases Depth(nodes, id, MAX_DEPTH)
  {
    match Parent(nodes, id)
    case None => None
    case Some(up) =>
      DepthBelowParent(nodes, id);
      if Drawn(nodes[up], icons, shares) then Some(up) else Lender(nodes, up, icons, shares)
  }

  // ----- the recursive, top-down specification

  /** Foods to decide: seeded, not vague, without an icon and without an earlier decision. */
  predicate Undecided(node: Node, seeded: seq<(OffId, Id)>, vague: set<OffId>, icons: set<OffId>, before: Shares) {
    && node.offId.Some? && (node.offId.value, node.id) in seeded
    && node.offId.value !in vague && node.offId.value !in icons && node.offId.value !in before
  }

  datatype World = World(nodes: Nodes, seeded: seq<(OffId, Id)>, vague: set<OffId>, icons: set<OffId>, before: Shares,
                         needsOwn: Question -> bool)

  /** What a run starts from: a valid catalogue, and a seeded food for each entry of the list, once. */
  ghost predicate ValidWorld(w: World) {
    && ValidCatalogue(w.nodes)
    && (forall k :: 0 <= k < |w.seeded| ==>
          w.seeded[k].1 in w.nodes && w.nodes[w.seeded[k].1].offId == Some(w.seeded[k].0) && w.seeded[k].0 != "")
    && (forall j, k :: 0 <= j < k < |w.seeded| ==> w.seeded[j].0 != w.seeded[k].0)
  }

  /** Whether a food ends up drawn: it has an icon, was decided so before, or is decided so now. */
  ghost predicate DrawnInTheEnd(w: World, id: Id)
    requires ValidWorld(w) && id in w.nodes
    decreases Depth(w.nodes, id, MAX_DEPTH), 2
  {
    if Undecided(w.nodes[id], w.seeded, w.vague, w.icons, w.before) then Decision(w, id) == Draw
    else Drawn(w.nodes[id], w.icons, w.before)
  }

  /** The nearest ancestor drawn in the end. */
  ghost function TrueLender(w: World, id: Id): (r: Option<Id>)
    requires ValidWorld(w) && id in w.nodes
    ensures r.Some? ==> r.value in w.nodes
    decreases Depth(w.nodes, id, MAX_DEPTH), 0
  {
    match Parent(w.nodes, id)
    case None => None
    case Some(up) =>
      DepthBelowParent(w.nodes, id);
      if DrawnInTheEnd(w, up) then Some(up) else TrueLender(w, up)
  }

  /** A food without a lender is drawn; any other is drawn if it needs an icon of its own beside its lender's. */
  ghost function Decision(w: World, id: Id): Share
    requires ValidWorld(w) && id in w.nodes
    decreases Depth(w.nodes, id, MAX_DEPTH), 1
  {
    match TrueLender(w, id)
    case None => Draw
    case Some(from) => if w.needsOwn(Question(id, from)) then Draw else Borrow
  }

  // ----- a run part of the way

  predicate IsUndecided(w: World, id: Id)
    requires id in w.nodes
  {
    Undecided(w.nodes[id], w.seeded, w.vague, w.icons, w.before)
  }

  /** The shares hold the earlier decisions, and the specified one for each food in `done`. */
  ghost predicate Settled(w: World, shares: Shares, done: set<Id>)
    requires ValidWorld(w)
  {
    && (forall id :: id in done ==> id in w.nodes && IsUndecided(w, id))
    && (forall id :: id in done ==> w.nodes[id].offId.value in shares)
    && (forall id :: id in done ==> shares[w.nodes[id].offId.value] == Decision(w, id))
    && (forall offId :: offId in w.before ==> offId in shares && shares[offId] == w.before[offId])
    && (forall offId :: offId in shares ==>
          offId in w.before || exists id :: id in done && w.nodes[id].offId == Some(offId))
  }

  /** Every undecided food above a level has been decided. */
  ghost predicate AboveDone(w: World, done: set<Id>, level: nat)
    requires ValidWorld(w)
  {
    forall id :: id in w.nodes && IsUndecided(w, id) && Depth(w.nodes, id, MAX_DEPTH) < level ==> id in done
  }

  lemma DrawnSettled(w: World, shares: Shares, done: set<Id>, id: Id)
    requires ValidWorld(w) && Settled(w, shares, done) && id in w.nodes
    requires IsUndecided(w, id) ==> id in done
    ensures Drawn(w.nodes[id], w.icons, shares) == DrawnInTheEnd(w, id)
  {
    assert forall other :: other in done && other != id ==>
      w.nodes[other].offId != w.nodes[id].offId || w.nodes[id].offId.None?;
  }

  /** Once the levels above are settled, the lender found is the nearest ancestor drawn in the end. */
  lemma {:induction false} LenderSettled(w: World, shares: Shares, done: set<Id>, id: Id)
    requires ValidWorld(w) && Settled(w, shares, done) && id in w.nodes
    requires AboveDone(w, done, Depth(w.nodes, id, MAX_DEPTH))
    ensures Lender(w.nodes, id, w.icons, shares) == TrueLender(w, id)
    decreases Depth(w.nodes, id, MAX_DEPTH)
  {
    match Parent(w.nodes, id)
    case None =>
    case Some(up) =>
      DepthBelowParent(w.nodes, id);
      DrawnSettled(w, shares, done, up);
      LenderSettled(w, shares, done, up);
  }

  /** Deciding one more food as specified. */
  lemma SettleOne(w: World, shares: Shares, done: set<Id>, id: Id)
    requires ValidWorld(w) && Settled(w, shares, done)
    requires id in w.nodes && IsUndecided(w, id)
    ensures Settled(w, shares[w.nodes[id].offId.value := Decision(w, id)], done + {id})
  {
    var shares' := shares[w.nodes[id].offId.value := Decision(w, id)];
    forall other | other in done + {id}
      ensures w.nodes[other].offId.value in shares' && shares'[w.nodes[other].offId.value] == Decision(w, other)
    {
      assert other == id || w.nodes[other].offId != w.nodes[id].offId;
    }
    SettleOrigins(w, shares, done, id, Decision(w, id));
  }

  lemma SettleOrigins(w: World, shares: Shares, done: set<Id>, id: Id, share: Share)
    requires ValidWorld(w) && Settled(w, shares, done)
    requires id in w.nodes && IsUndecided(w, id)
    ensures forall o :: o in shares[w.nodes[id].offId.value := share] ==>
      o in w.before || exists other :: other in done + {id} && w.nodes[other].offId == Some(o)
  {
    forall o | o in shares[w.nodes[id].offId.value := share]
      ensures o in w.before || exists other :: other in done + {id} && w.nodes[other].offId == Some(o)
    {
      if o == w.nodes[id].offId.value {
        assert id in done + {id};
      } else if o !in w.before {
        var other :| other in done && w.nodes[other].offId == Some(o);
        assert other in done + {id};
      }
    }
  }

  // ----- what was asked

  /** Each question asks an undecided food against its true lender, and no food is asked twice. */
  ghost predicate WellAsked(w: World, asked: seq<Question>)
    requires ValidWorld(w)
  {
    && (forall k :: 0 <= k < |asked| ==>
          asked[k].food in w.nodes && IsUndecided(w, asked[k].food) &&
          TrueLender(w, asked[k].food) == Some(asked[k].lender))
    && (forall j, k :: 0 <= j < k < |asked| ==> asked[j].food != asked[k].food)
  }

  ghost predicate IsAsked(asked: seq<Question>, id: Id) {
    exists k :: 0 <= k < |asked| && asked[k].food == id
  }

  lemma AskOne(w: World, loans: seq<Question>, id: Id, from: Id)
    requires ValidWorld(w) && WellAsked(w, loans)
    requires id in w.nodes && IsUndecided(w, id) && TrueLender(w, id) == Some(from)
    requires forall k :: 0 <= k < |loans| ==> loans[k].food != id
    ensures WellAsked(w, loans + [Question(id, from)])
  {
  }

  lemma AskedStays(loans: seq<Question>, q: Question)
    ensures forall id :: IsAsked(loans + [q], id) <==> IsAsked(loans, id) || id == q.food
  {
    var loans' := loans + [q];
    assert loans'[|loans|] == q;
    forall id | IsAsked(loans, id) ensures IsAsked(loans', id) {
      var k :| 0 <= k < |loans| && loans[k].food == id;
      assert loans'[k].food == id;
    }
  }

  /**
   * A level part of the way: of the foods looked at, those of the level without a lender
   * have been decided and the others stand among the loans.
   */
  ghost predicate LevelPart(w: World, level: nat, done: set<Id>, done': set<Id>, loans: seq<Question>, seen: seq<Id>)
    requires ValidWorld(w)
  {
    && WellAsked(w, loans) && done <= done'
    && (forall id :: id in done' && id !in done ==>
          id in seen && id in w.nodes && Depth(w.nodes, id, MAX_DEPTH) == level && TrueLender(w, id).None?)
    && (forall k :: 0 <= k < |loans| ==>
          loans[k].food in seen && loans[k].food !in done' && Depth(w.nodes, loans[k].food, MAX_DEPTH) == level)
    && (forall id :: id in seen && id in w.nodes && Depth(w.nodes, id, MAX_DEPTH) == level ==>
              id in done' || IsAsked(loans, id))
  }

  lemma PartSkip(w: World, level: nat, done: set<Id>, done': set<Id>, loans: seq<Question>, seen: seq<Id>, id: Id)
    requires ValidWorld(w) && LevelPart(w, level, done, done', loans, seen)
    requires id in w.nodes && Depth(w.nodes, id, MAX_DEPTH) != level
    ensures LevelPart(w, level, done, done', loans, seen + [id])
  {
  }

  lemma PartReady(w: World, level: nat, done: set<Id>, done': set<Id>, loans: seq<Question>, seen: seq<Id>, id: Id)
    requires ValidWorld(w) && LevelPart(w, level, done, done', loans, seen) && AboveDone(w, done, level)
    requires id !in seen && id !in done
    ensures AboveDone(w, done', level) && id !in done'
  {
  }

  lemma PartDraw(w: World, level: nat, done: set<Id>, done': set<Id>, loans: seq<Question>, seen: seq<Id>, id: Id)
    requires ValidWorld(w) && LevelPart(w, level, done, done', loans, seen)
    requires id in w.nodes && id !in seen && Depth(w.nodes, id, MAX_DEPTH) == level && TrueLender(w, id).None?
    ensures LevelPart(w, level, done, done' + {id}, loans, seen + [id])
  {
  }

  lemma PartAsk(w: World, level: nat, done: set<Id>, done': set<Id>, loans: seq<Question>, seen: seq<Id>,
                id: Id, from: Id)
    requires ValidWorld(w) && LevelPart(w, level, done, done', loans, seen)
    requires id in w.nodes && IsUndecided(w, id) && id !in seen && id !in done'
    requires Depth(w.nodes, id, MAX_DEPTH) == level && TrueLender(w, id) == Some(from)
    ensures LevelPart(w, level, done, done', loans + [Question(id, from)], seen + [id])
  {
    var loans' := loans + [Question(id, from)];
    AskOne(w, loans, id, from);
    AskedStays(loans, Question(id, from));
  }

  // ----- the run

  class ShareBook {
    var shares: Shares

    constructor (shares: Shares)
      ensures this.shares == shares
    {
      this.shares := shares;
    }

    /** Walk up to the first ancestor that is drawn. */
    method FindLender(nodes: Nodes, id: Id, icons: set<OffId>) returns (r: Option<Id>)
      requires ValidCatalogue(nodes) && id in nodes
      ensures r == Lender(nodes, id, icons, shares)
    {
      var up := Parent(nodes, id);
      ghost var below := id;
      while up.Some?
        invariant below in nodes && up == Parent(nodes, below)
        invariant Lender(nodes, id, icons, shares) == Lender(nodes, below, icons, shares)
        decreases Depth(nodes, below, MAX_DEPTH)
      {
        DepthBelowParent(nodes, below);
        if Drawn(nodes[up.value], icons, shares) {
          return up;
        }
        below := up.value;
        up := Parent(nodes, up.value);
      }
      return None;
    }

    /** Count the levels above a food, at most `MAX_DEPTH` of them. */
    method CountDepth(nodes: Nodes, id: Id) returns (levels: nat)
      requires id in nodes
      ensures levels == Depth(nodes, id, MAX_DEPTH)
    {
      levels := 0;
      var up := Parent(nodes, id);
      ghost var below := id;
      while up.Some? && levels < MAX_DEPTH
        invariant levels <= MAX_DEPTH && below in nodes && up == Parent(nodes, below)
        invariant Depth(nodes, id, MAX_DEPTH) == levels + Depth(nodes, below, MAX_DEPTH - levels)
      {
        below := up.value;
        up := Parent(nodes, up.value);
        levels := levels + 1;
      }
    }

    /** One food of the level: drawn at once without a lender, asked about with one. */
    method DrawOrAsk(w: World, id: Id, level: nat, asked: seq<Question>,
                     ghost done: set<Id>, ghost part: set<Id>, ghost seen: seq<Id>)
      returns (loans: seq<Question>, ghost done': set<Id>)
      requires ValidWorld(w) && id in w.nodes && IsUndecided(w, id) && id !in seen && id !in part
      requires Depth(w.nodes, id, MAX_DEPTH) == level && AboveDone(w, part, level)
      requires Settled(w, shares, part) && LevelPart(w, level, done, part, asked, seen)
      modifies this
      ensures Settled(w, shares, done') && LevelPart(w, level, done, done', loans, seen + [id])
    {
      loans, done' := asked, part;
      var from := FindLender(w.nodes, id, w.icons);
      LenderSettled(w, shares, part, id);
      if from.None? {
        SettleOne(w, shares, part, id);
        PartDraw(w, level, done, part, asked, seen, id);
        shares := shares[w.nodes[id].offId.value := Draw];
        done' := part + {id};
      } else {
        PartAsk(w, level, done, part, asked, seen, id, from.value);
        loans := asked + [Question(id, from.value)];
      }
    }

    /**
     * The first half of a level: each of its foods looks for its lender; one without is
     * drawn at once, the others become the level's questions.
     */
    method FindLoans(w: World, undecided: seq<Id>, depths: map<Id, nat>, level: nat, ghost done: set<Id>)
      returns (loans: seq<Question>, ghost done': set<Id>)
      requires ValidWorld(w) && Settled(w, shares, done) && AboveDone(w, done, level)
      requires Listed(w, undecided) && DepthsOf(w, undecided, depths)
      requires forall id :: id in done ==> Depth(w.nodes, id, MAX_DEPTH) != level
      modifies this
      ensures Settled(w, shares, done') && LevelPart(w, level, done, done', loans, undecided)
    {
      loans := [];
      done' := done;
      var i := 0;
      while i < |undecided|
        invariant i <= |undecided|
        invariant Settled(w, shares, done') && LevelPart(w, level, done, done', loans, undecided[..i])
      {
        var id := undecided[i];
        NextListed(w, undecided, i);
        if depths[id] != level {
          PartSkip(w, level, done, done', loans, undecided[..i], id);
        } else {
          PartReady(w, level, done, done', loans, undecided[..i], id);
          loans, done' := DrawOrAsk(w, id, level, loans, done, done', undecided[..i]);
        }
        i := i + 1;
      }
      assert undecided[..i] == undecided;
    }

    method WriteAnswer(w: World, q: Question, own: bool, ghost done: set<Id>)
      requires ValidWorld(w) && Settled(w, shares, done) && own == w.needsOwn(q)
      requires q.food in w.nodes && IsUndecided(w, q.food) && TrueLender(w, q.food) == Some(q.lender)
      modifies this
      ensures Settled(w, shares, done + {q.food})
    {
      SettleOne(w, shares, done, q.food);
      shares := shares[w.nodes[q.food].offId.value := if own then Draw else Borrow];
    }

    /** The second half of a level: the answers, one for each question, become shares. */
    method WriteAnswers(w: World, loans: seq<Question>, own: seq<bool>, ghost done: set<Id>)
      returns (ghost done': set<Id>)
      requires ValidWorld(w) && Settled(w, shares, done) && WellAsked(w, loans)
      requires |own| == |loans| && forall k :: 0 <= k < |loans| ==> own[k] == w.needsOwn(loans[k])
      modifies this
      ensures Settled(w, shares, done') && done' == done + Foods(loans)
    {
      done' := done;
      var k := 0;
      while k < |loans|
        invariant k <= |loans|
        invariant Settled(w, shares, done') && done' == done + Foods(loans[..k])
      {
        WriteAnswer(w, loans[k], own[k], done');
        FoodsNext(loans, k);
        done' := done' + {loans[k].food};
        k := k + 1;
      }
      assert loans[..k] == loans;
    }

    /** The seeded foods that are not vague, have no icon and were not decided before. */
    method ListUndecided(w: World) returns (undecided: seq<Id>)
      requires ValidWorld(w) && shares == w.before
      ensures Listed(w, undecided)
    {
      undecided := [];
      var k := 0;
      while k < |w.seeded|
        invariant k <= |w.seeded|
        invariant forall i :: 0 <= i < |undecided| ==> undecided[i] in w.nodes && IsUndecided(w, undecided[i])
        invariant forall i :: 0 <= i < |undecided| ==> exists j :: 0 <= j < k && w.seeded[j].1 == undecided[i]
        invariant forall j :: 0 <= j < k && IsUndecided(w, w.seeded[j].1) ==> w.seeded[j].1 in undecided
        invariant forall i, j :: 0 <= i < j < |undecided| ==> undecided[i] != undecided[j]
      {
        var (offId, id) := w.seeded[k];
        if offId !in w.vague && offId !in w.icons && offId !in shares {
          assert (offId, id) in w.seeded;
          undecided := undecided + [id];
        }
        k := k + 1;
      }
      forall id | id in w.nodes && IsUndecided(w, id) ensures id in undecided {
        var j :| 0 <= j < |w.seeded| && w.seeded[j] == (w.nodes[id].offId.value, w.nodes[id].id);
      }
    }

    /** The level of each undecided food, and the levels there are. */
    method CountLevels(w: World, undecided: seq<Id>) returns (depths: map<Id, nat>, levels: set<nat>)
      requires ValidWorld(w) && Listed(w, undecided)
      ensures DepthsOf(w, undecided, depths)
      ensures forall id :: id in undecided ==> Depth(w.nodes, id, MAX_DEPTH) in levels
    {
      depths, levels := map[], {};
      var i := 0;
      while i < |undecided|
        invariant i <= |undecided|
        invariant forall k :: 0 <= k < i ==> undecided[k] in depths
        invariant forall id :: id in depths ==> id in w.nodes && depths[id] == Depth(w.nodes, id, MAX_DEPTH)
        invariant forall k :: 0 <= k < i ==> Depth(w.nodes, undecided[k], MAX_DEPTH) in levels
      {
        var depth := CountDepth(w.nodes, undecided[i]);
        depths, levels := depths[undecided[i] := depth], levels + {depth};
        i := i + 1;
      }
    }

    static method NextLevel(levels: set<nat>) returns (level: nat)
      requires levels != {}
      ensures level in levels && forall l :: l in levels ==> level <= l
    {
      LeastLevel(levels);
      assert exists m :: m in levels && forall l :: l in levels ==> m <= l by {
        var m :| IsLeast(m, levels);
      }
      level :| level in levels && forall l :: l in levels ==> level <= l;
    }

    /** One level: the loans found, the model asked about all of them together, the answers written. */
    method DecideLevel(w: World, undecided: seq<Id>, depths: map<Id, nat>, levels: set<nat>, level: nat,
                       asked: seq<Question>, ghost done: set<Id>)
      returns (loans: seq<Question>, ghost done': set<Id>)
      requires ValidWorld(w) && Settled(w, shares, done) && LevelsDone(w, done, levels, asked)
      requires Listed(w, undecided) && DepthsOf(w, undecided, depths)
      requires level in levels && AboveDone(w, done, level)
      modifies this
      ensures Settled(w, shares, done') && LevelsDone(w, done', levels - {level}, asked + loans)
    {
      ghost var part;
      loans, part := FindLoans(w, undecided, depths, level, done);
      var own := seq(|loans|, k requires 0 <= k < |loans| => w.needsOwn(loans[k]));
      LevelDone(w, done, part, levels, level, asked, loans, undecided);
      done' := WriteAnswers(w, loans, own, part);
    }

    /**
     * Decide every undecided food, the levels of the tree in order. Each gets the decision
     * of the recursive specification, earlier decisions stay, and the model is asked once
     * about each food with a lender, against its true one, and about no other.
     */
    method DecideShares(w: World) returns (asked: seq<Question>)
      requires ValidWorld(w) && shares == w.before
      modifies this
      ensures Settled(w, shares, AllUndecided(w))
      ensures WellAsked(w, asked)
      ensures forall id :: id in AllUndecided(w) ==> (IsAsked(asked, id) <==> TrueLender(w, id).Some?)
    {
      var undecided := ListUndecided(w);
      var depths, levels := CountLevels(w, undecided);
      asked := [];
      ghost var done: set<Id> := {};
      while levels != {}
        invariant Settled(w, shares, done) && LevelsDone(w, done, levels, asked)
        decreases |levels|
      {
        var level := NextLevel(levels);
        var loans;
        loans, done := DecideLevel(w, undecided, depths, levels, level, asked, done);
        asked := asked + loans;
        levels := levels - {level};
      }
      assert done == AllUndecided(w);
    }
  }

  /** The undecided foods, each once. */
  ghost predicate Listed(w: World, undecided: seq<Id>) {
    && (forall k :: 0 <= k < |undecided| ==> undecided[k] in w.nodes && IsUndecided(w, undecided[k]))
    && (forall id :: id in w.nodes && IsUndecided(w, id) ==> id in undecided)
    && (forall j, k :: 0 <= j < k < |undecided| ==> undecided[j] != undecided[k])
  }

  lemma NextListed(w: World, undecided: seq<Id>, i: nat)
    requires Listed(w, undecided) && i < |undecided|
    ensures undecided[i] in w.nodes && IsUndecided(w, undecided[i]) && undecided[i] in undecided
    ensures undecided[i] !in undecided[..i] && undecided[..i + 1] == undecided[..i] + [undecided[i]]
  {
  }

  ghost predicate DepthsOf(w: World, undecided: seq<Id>, depths: map<Id, nat>)
    requires Listed(w, undecided)
  {
    forall id :: id in undecided ==> id in depths && depths[id] == Depth(w.nodes, id, MAX_DEPTH)
  }

  /** Whole levels done: the decided foods are those of the levels gone, and those with a lender have been asked. */
  ghost predicate LevelsDone(w: World, done: set<Id>, levels: set<nat>, asked: seq<Question>)
    requires ValidWorld(w)
  {
    && WellAsked(w, asked)
    && (forall id :: id in done ==> id in w.nodes && IsUndecided(w, id) && Depth(w.nodes, id, MAX_DEPTH) !in levels)
    && (forall id :: id in w.nodes && IsUndecided(w, id) && Depth(w.nodes, id, MAX_DEPTH) !in levels ==> id in done)
    && (forall id :: id in done ==> (IsAsked(asked, id) <==> TrueLender(w, id).Some?))
    && (forall k :: 0 <= k < |asked| ==> asked[k].food in done)
  }

  function Foods(loans: seq<Question>): set<Id> {
    set k | 0 <= k < |loans| :: loans[k].food
  }

  lemma FoodsSnoc(loans: seq<Question>, q: Question)
    ensures Foods(loans + [q]) == Foods(loans) + {q.food}
  {
    var all := loans + [q];
    assert all[|loans|] == q;
    assert forall k :: 0 <= k < |loans| ==> all[k] == loans[k];
  }

  lemma FoodsNext(loans: seq<Question>, k: nat)
    requires k < |loans|
    ensures Foods(loans[..k + 1]) == Foods(loans[..k]) + {loans[k].food}
  {
    assert loans[..k + 1] == loans[..k] + [loans[k]];
    FoodsSnoc(loans[..k], loans[k]);
  }

  lemma AskedConcat(a: seq<Question>, b: seq<Question>)
    ensures forall id :: IsAsked(a + b, id) <==> IsAsked(a, id) || IsAsked(b, id)
  {
    forall id ensures IsAsked(a + b, id) <==> IsAsked(a, id) || IsAsked(b, id) {
      if k :| 0 <= k < |a| && a[k].food == id {
        assert (a + b)[k].food == id;
      }
      if k :| 0 <= k < |b| && b[k].food == id {
        assert (a + b)[|a| + k].food == id;
      }
    }
  }

  lemma WellAskedConcat(w: World, a: seq<Question>, b: seq<Question>, done: set<Id>)
    requires ValidWorld(w) && WellAsked(w, a) && WellAsked(w, b)
    requires forall k :: 0 <= k < |a| ==> a[k].food in done
    requires forall k :: 0 <= k < |b| ==> b[k].food !in done
    ensures WellAsked(w, a + b)
  {
  }

  /** One more level done. */
  lemma LevelDone(w: World, done: set<Id>, done': set<Id>, levels: set<nat>, level: nat, asked: seq<Question>,
                  loans: seq<Question>, undecided: seq<Id>)
    requires ValidWorld(w) && LevelsDone(w, done, levels, asked) && Listed(w, undecided)
    requires level in levels && LevelPart(w, level, done, done', loans, undecided)
    ensures LevelsDone(w, done' + Foods(loans), levels - {level}, asked + loans)
  {
    var after := done' + Foods(loans);
    WellAskedConcat(w, asked, loans, done);
    AskedConcat(asked, loans);
    forall id | id in after
      ensures id in w.nodes && IsUndecided(w, id) && Depth(w.nodes, id, MAX_DEPTH) !in levels - {level}
      ensures IsAsked(asked + loans, id) <==> TrueLender(w, id).Some?
    {
      if id !in done && id in done' {
        assert !IsAsked(asked, id) && !IsAsked(loans, id);
      } else if id in done {
        assert !IsAsked(loans, id);
      } else {
        var k :| 0 <= k < |loans| && loans[k].food == id;
      }
    }
    forall id | id in w.nodes && IsUndecided(w, id) && Depth(w.nodes, id, MAX_DEPTH) !in levels - {level}
      ensures id in after {
      if id !in done && IsAsked(loans, id) {
        var k :| 0 <= k < |loans| && loans[k].food == id;
      }
    }
  }

  lemma {:induction false} LeastLevel(levels: set<nat>)
    requires levels != {}
    ensures exists m :: IsLeast(m, levels)
    decreases |levels|
  {
    var l :| l in levels;
    var rest := levels - {l};
    if rest == {} {
      assert levels == {l};
      assert IsLeast(l, levels);
    } else {
      LeastLevel(rest);
      var m :| IsLeast(m, rest);
      assert levels == rest + {l};
      assert IsLeast(if l <= m then l else m, levels);
    }
  }

  ghost predicate IsLeast(m: nat, levels: set<nat>) {
    m in levels && forall l :: l in levels ==> m <= l
  }

  ghost function AllUndecided(w: World): set<Id> {
    set id | id in w.nodes && IsUndecided(w, id)
  }

  /**
   * After the run every lookup agrees with the specification: a food is drawn exactly
   * when it is drawn in the end, and its lender is its nearest ancestor that is.
   */
  lemma FinalSharesAgree(w: World, shares: Shares, id: Id)
    requires ValidWorld(w) && id in w.nodes && Settled(w, shares, AllUndecided(w))
    ensures Drawn(w.nodes[id], w.icons, shares) == DrawnInTheEnd(w, id)
    ensures Lender(w.nodes, id, w.icons, shares) == TrueLender(w, id)
  {
    DrawnSettled(w, shares, AllUndecided(w), id);
    LenderSettled(w, shares, AllUndecided(w), id);
  }

  // ----- what the specification says of single foods

  /** A food shows as drawn: it has an id, and that has an icon in the manifest or is decided to be drawn. */
  predicate ShowsAsDrawn(offId: Option<OffId>, icons: set<OffId>, shares: Shares) {
    && offId.Some? && offId.value != ""
    && (offId.value in icons || (offId.value in shares && shares[offId.value].Draw?))
  }

  /** The lender: the parent if it shows as drawn, else the parent's own lender; none without a parent. */
  lemma LenderIs(nodes: Nodes, id: Id, icons: set<OffId>, shares: Shares)
    requires ValidCatalogue(nodes) && id in nodes
    ensures var parent := nodes[id].parentId;
      Lender(nodes, id, icons, shares) ==
        if parent.None? || parent.value !in nodes then None
        else if ShowsAsDrawn(nodes[parent.value].offId, icons, shares) then parent
        else Lender(nodes, parent.value, icons, shares)
  {
  }

  /** An undecided food: on the list, not vague, without an icon and without an earlier decision. */
  predicate ToDecide(w: World, id: Id)
    requires id in w.nodes
  {
    && w.nodes[id].offId.Some? && (w.nodes[id].offId.value, w.nodes[id].id) in w.seeded
    && w.nodes[id].offId.value !in w.vague
    && w.nodes[id].offId.value !in w.icons
    && w.nodes[id].offId.value !in w.before
  }

  /** Whether an undecided food is drawn: without a lender, or needing an icon of its own beside its lender's. */
  ghost predicate NeedsDrawing(w: World, id: Id)
    requires ValidWorld(w) && id in w.nodes
  {
    TrueLender(w, id).None? || w.needsOwn(Question(id, TrueLender(w, id).value))
  }

  /** A question answered with yes, or never asked for want of a lender, means a drawing; answered with no, a loan. */
  lemma DecisionIs(w: World, id: Id)
    requires ValidWorld(w) && id in w.nodes
    ensures Decision(w, id) == if NeedsDrawing(w, id) then Draw else Borrow
  {
  }

  /** A food is drawn in the end exactly when it has an icon, was decided to be, or is undecided and needs drawing. */
  lemma DrawnInTheEndIs(w: World, id: Id)
    requires ValidWorld(w) && id in w.nodes
    ensures DrawnInTheEnd(w, id) <==>
      || ShowsAsDrawn(w.nodes[id].offId, w.icons, w.before)
      || (ToDecide(w, id) && NeedsDrawing(w, id))
  {
  }

  /** The true lender: the parent if it has an icon, was decided to be drawn or needs drawing, else the parent's own. */
  lemma TrueLenderIs(w: World, id: Id)
    requires ValidWorld(w) && id in w.nodes
    ensures var parent := w.nodes[id].parentId;
      TrueLender(w, id) ==
        if parent.None? || parent.value !in w.nodes then None
        else if ShowsAsDrawn(w.nodes[parent.value].offId, w.icons, w.before)
             || (ToDecide(w, parent.value) && NeedsDrawing(w, parent.value)) then parent
        else TrueLender(w, parent.value)
  {
    var parent := w.nodes[id].parentId;
    if parent.Some? && parent.value in w.nodes {
      DrawnInTheEndIs(w, parent.value);
    }
  }

  /**
   * The shares at the end: the earlier ones as they were, and one for each food on the list
   * that is not vague, has no icon and had none, which says whether it needs drawing.
   */
  lemma SharesAre(w: World, shares: Shares, k: nat)
    requires ValidWorld(w) && Settled(w, shares, AllUndecided(w)) && k < |w.seeded|
    ensures var (offId, id) := w.seeded[k];
      if offId in w.before then offId in shares && shares[offId] == w.before[offId]
      else if offId in w.vague || offId in w.icons then offId !in shares
      else offId in shares && shares[offId] == if NeedsDrawing(w, id) then Draw else Borrow
    ensures forall offId | offId in shares ::
      offId in w.before || exists j :: 0 <= j < |w.seeded| && w.seeded[j].0 == offId
  {
    var (offId, id) := w.seeded[k];
    assert (offId, id) in w.seeded && w.nodes[id].offId == Some(offId) && w.nodes[id].id == id;
    if offId !in w.before && offId !in w.vague && offId !in w.icons {
      assert id in AllUndecided(w);
      DecisionIs(w, id);
    }
    forall o | o in shares ensures o in w.before || exists j :: 0 <= j < |w.seeded| && w.seeded[j].0 == o {
      if o !in w.before {
        var other :| other in AllUndecided(w) && w.nodes[other].offId == Some(o);
        var j :| 0 <= j < |w.seeded| && w.seeded[j] == (o, w.nodes[other].id);
        assert w.seeded[j].0 == o;
      }
    }
  }
}
