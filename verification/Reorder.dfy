/** Reordering a series: the positions a client list asks for, and writing them under a unique index. */
module Reorder {
  import opened Prelude

  type Id = int

  // -------------------------------------------------------- what is asked for

  /** Where the id is first mentioned. */
  function FirstIndex(ids: seq<Id>, id: Id): (i: nat)
    requires id in ids
    ensures i < |ids| && ids[i] == id && id !in ids[..i]
  {
    if ids[0] == id then 0 else
      assert id in ids[1..];
      assert ids[..1 + FirstIndex(ids[1..], id)] == [ids[0]] + ids[1..][..FirstIndex(ids[1..], id)];
      1 + FirstIndex(ids[1..], id)
  }

  /** The reading order wanted of two members: named ones as first mentioned, omitted ones behind as they were. */
  predicate Before(books: seq<Id>, named: seq<Id>, a: Id, b: Id)
    requires a in books && b in books
  {
    if a in named && b in named then FirstIndex(named, a) < FirstIndex(named, b)
    else if a in named || b in named then a in named
    else FirstIndex(books, a) < FirstIndex(books, b)
  }

  /** The numbers are from 1 to the number of keys, and none is given twice. */
  ghost predicate Numbering(pos: map<Id, int>) {
    && (forall a :: a in pos ==> 1 <= pos[a] <= |pos|)
    && (forall a, b :: a in pos && b in pos && a != b ==> pos[a] != pos[b])
  }

  /** The positions are 1..n, one for each member, in the reading order wanted. */
  ghost predicate Arranges(books: seq<Id>, named: seq<Id>, pos: map<Id, int>) {
    && pos.Keys == Elements(books) && Numbering(pos)
    && (forall a, b :: a in pos && b in pos && Before(books, named, a, b) ==> pos[a] < pos[b])
  }

  lemma BeforeIsTotal(books: seq<Id>, named: seq<Id>, a: Id, b: Id)
    requires a in books && b in books
    ensures a != b ==> (Before(books, named, a, b) <==> !Before(books, named, b, a))
    ensures !Before(books, named, a, a)
  {
  }

  function UpTo(pos: map<Id, int>, v: int): set<Id> {
    set a | a in pos && pos[a] <= v
  }

  function Beyond(pos: map<Id, int>, v: int): set<Id> {
    set a | a in pos && pos[a] > v
  }

  lemma {:induction false} AtMostUpTo(pos: map<Id, int>, v: nat)
    requires Numbering(pos)
    ensures |UpTo(pos, v)| <= v
  {
    if v == 0 {
      assert forall a :: a in pos ==> pos[a] > v;
      assert UpTo(pos, v) == {};
    } else {
      AtMostUpTo(pos, v - 1);
      if at :| at in pos && pos[at] == v {
        assert forall a :: a in pos && a != at ==> pos[a] != v;
        assert UpTo(pos, v) == UpTo(pos, v - 1) + {at};
      } else {
        assert forall a :: a in pos ==> pos[a] != v;
        assert UpTo(pos, v) == UpTo(pos, v - 1);
      }
    }
  }

  lemma {:induction false} AtMostBeyond(pos: map<Id, int>, v: nat)
    requires Numbering(pos) && v <= |pos|
    ensures |Beyond(pos, v)| <= |pos| - v
    decreases |pos| - v
  {
    if v == |pos| {
      assert forall a :: a in pos ==> pos[a] <= v;
      assert Beyond(pos, v) == {};
    } else {
      AtMostBeyond(pos, v + 1);
      if at :| at in pos && pos[at] == v + 1 {
        assert forall a :: a in pos && a != at ==> pos[a] != v + 1;
        assert Beyond(pos, v) == Beyond(pos, v + 1) + {at};
      } else {
        assert forall a :: a in pos ==> pos[a] != v + 1;
        assert Beyond(pos, v) == Beyond(pos, v + 1);
      }
    }
  }

  /** A numbering leaves no gap: exactly `v` keys have numbers up to `v`. */
  lemma ExactlyUpTo(pos: map<Id, int>, v: nat)
    requires Numbering(pos) && v <= |pos|
    ensures |UpTo(pos, v)| == v
  {
    AtMostUpTo(pos, v);
    AtMostBeyond(pos, v);
    assert UpTo(pos, v) + Beyond(pos, v) == pos.Keys;
    assert |UpTo(pos, v)| + |Beyond(pos, v)| == |pos.Keys| == |pos|;
  }

  /** Every slot from 1 to n is taken. */
  lemma NoGaps(pos: map<Id, int>, v: nat) returns (id: Id)
    requires Numbering(pos) && 1 <= v <= |pos|
    ensures id in pos && pos[id] == v
  {
    ExactlyUpTo(pos, v);
    ExactlyUpTo(pos, v - 1);
    assert (forall a :: a in pos ==> pos[a] != v) ==> UpTo(pos, v) == UpTo(pos, v - 1);
    id :| id in pos && pos[id] == v;
  }

  /** The request determines every position. */
  lemma ArrangementIsUnique(books: seq<Id>, named: seq<Id>, p: map<Id, int>, q: map<Id, int>)
    requires Arranges(books, named, p) && Arranges(books, named, q)
    ensures p == q
  {
    forall id | id in p
      ensures p[id] == q[id]
    {
      ExactlyUpTo(p, p[id]);
      ExactlyUpTo(q, q[id]);
      forall a | a in p
        ensures p[a] <= p[id] <==> q[a] <= q[id]
      {
        BeforeIsTotal(books, named, a, id);
      }
      assert UpTo(p, p[id]) == UpTo(q, q[id]);
    }
  }

  // ------------------------------------------------------------ how it is built

  /** The ids numbered from 1 as they are first mentioned. */
  ghost predicate NumbersMentions(ids: seq<Id>, out: map<Id, int>) {
    && out.Keys == Elements(ids)
    && (forall a :: a in out ==> 1 <= out[a] <= |out|)
    && (forall a, b :: a in out && b in out && FirstIndex(ids, a) < FirstIndex(ids, b) ==> out[a] < out[b])
  }

  lemma {:induction false} FirstIndexAppend(ids: seq<Id>, more: seq<Id>, id: Id)
    requires id in ids || id in more
    ensures id in ids + more
    ensures FirstIndex(ids + more, id) == if id in ids then FirstIndex(ids, id) else |ids| + FirstIndex(more, id)
  {
    if ids == [] {
      assert ids + more == more;
    } else if ids[0] != id {
      assert (ids + more)[1..] == ids[1..] + more;
      FirstIndexAppend(ids[1..], more, id);
    }
  }

  lemma ElementsAppend(ids: seq<Id>, id: Id)
    ensures Elements(ids + [id]) == Elements(ids) + {id}
  {
  }

  lemma MentionAgain(ids: seq<Id>, id: Id, out: map<Id, int>)
    requires NumbersMentions(ids, out) && id in out
    ensures NumbersMentions(ids + [id], out)
  {
    ElementsAppend(ids, id);
    forall a | a in out
      ensures a in ids + [id] && FirstIndex(ids + [id], a) == FirstIndex(ids, a)
    {
      FirstIndexAppend(ids, [id], a);
    }
  }

  lemma MentionNew(ids: seq<Id>, id: Id, out: map<Id, int>)
    requires NumbersMentions(ids, out) && id !in out
    ensures NumbersMentions(ids + [id], out[id := |out| + 1])
    ensures |out[id := |out| + 1]| == |out| + 1
  {
    var out' := out[id := |out| + 1];
    ElementsAppend(ids, id);
    assert out'.Keys == out.Keys + {id} && |out'| == |out'.Keys| && |out| == |out.Keys|;
    forall a | a in out'
      ensures a in ids + [id] && FirstIndex(ids + [id], a) == if a == id then |ids| else FirstIndex(ids, a)
    {
      FirstIndexAppend(ids, [id], a);
    }
  }

  /** Each id is numbered where it first appears; what repeats it costs no number. */
  method ReorderPositions(ids: seq<Id>) returns (out: map<Id, int>)
    ensures NumbersMentions(ids, out)
  {
    out := map[];
    var next := 1;
    for i := 0 to |ids|
      invariant NumbersMentions(ids[..i], out) && next == |out| + 1
    {
      assert ids[..i + 1] == ids[..i] + [ids[i]];
      if ids[i] in out {
        MentionAgain(ids[..i], ids[i], out);
      } else {
        MentionNew(ids[..i], ids[i], out);
        out := out[ids[i] := next];
        next := next + 1;
      }
    }
    assert ids[..|ids|] == ids;
  }

  function Select(ids: seq<Id>, keep: set<Id>): (r: seq<Id>)
    ensures forall id :: id in r <==> id in ids && id in keep
  {
    if ids == [] then []
    else if ids[|ids| - 1] in keep then Select(ids[..|ids| - 1], keep) + [ids[|ids| - 1]]
    else Select(ids[..|ids| - 1], keep)
  }

  /** Dropping ids does not change which of two kept ones is mentioned first. */
  lemma {:induction false} SelectKeepsOrder(ids: seq<Id>, keep: set<Id>, a: Id, b: Id)
    requires a in ids && b in ids && a in keep && b in keep
    ensures var kept := Select(ids, keep);
            FirstIndex(kept, a) < FirstIndex(kept, b) <==> FirstIndex(ids, a) < FirstIndex(ids, b)
  {
    var init, last := ids[..|ids| - 1], ids[|ids| - 1];
    var kept := Select(init, keep);
    assert ids == init + [last];
    forall x | x in ids && x in keep
      ensures FirstIndex(ids, x) == if x in init then FirstIndex(init, x) else |init|
      ensures x in init ==> x in kept && FirstIndex(Select(ids, keep), x) == FirstIndex(kept, x)
      ensures x !in init ==> FirstIndex(Select(ids, keep), x) == |kept|
    {
      FirstIndexAppend(init, [last], x);
      if last in keep {
        FirstIndexAppend(kept, [last], x);
      }
    }
    if a in init && b in init {
      SelectKeepsOrder(init, keep, a, b);
    }
  }

  /** The list the positions are numbered from: members as named, then the members nobody named. */
  function Wanted(books: seq<Id>, named: seq<Id>): seq<Id> {
    var ordered := Select(named, Elements(books));
    ordered + Select(books, Elements(books) - Elements(ordered))
  }

  lemma WantedIsBefore(books: seq<Id>, named: seq<Id>, a: Id, b: Id)
    requires a in books && b in books && Before(books, named, a, b)
    ensures a in Wanted(books, named) && b in Wanted(books, named)
    ensures FirstIndex(Wanted(books, named), a) < FirstIndex(Wanted(books, named), b)
  {
    var ordered := Select(named, Elements(books));
    var rest := Elements(books) - Elements(ordered);
    FirstIndexAppend(ordered, Select(books, rest), a);
    FirstIndexAppend(ordered, Select(books, rest), b);
    if a in named && b in named {
      SelectKeepsOrder(named, Elements(books), a, b);
    } else if a !in named && b !in named {
      SelectKeepsOrder(books, rest, a, b);
    }
  }

  /** Numbering the wanted list arranges the series as asked. */
  lemma NumberingArranges(books: seq<Id>, named: seq<Id>, pos: map<Id, int>)
    requires NumbersMentions(Wanted(books, named), pos)
    ensures Arranges(books, named, pos)
  {
    var wanted := Wanted(books, named);
    assert Elements(wanted) == Elements(books);
    forall a, b | a in pos && b in pos && a != b
      ensures pos[a] != pos[b]
    {
      assert FirstIndex(wanted, a) != FirstIndex(wanted, b);
    }
    forall a, b | a in pos && b in pos && Before(books, named, a, b)
      ensures pos[a] < pos[b]
    {
      WantedIsBefore(books, named, a, b);
    }
  }

  /** The positions for a client list that may name strangers, repeat members and omit others. */
  method ReorderSeries(books: seq<Id>, novelIds: seq<Id>) returns (pos: map<Id, int>)
    ensures Arranges(books, novelIds, pos)
  {
    var member: set<Id> := {};
    for i := 0 to |books|
      invariant member == Elements(books[..i])
    {
      member := member + {books[i]};
      assert books[..i + 1] == books[..i] + [books[i]];
    }
    assert books[..|books|] == books;
    var ordered: seq<Id> := [];
    for i := 0 to |novelIds|
      invariant ordered == Select(novelIds[..i], member)
    {
      assert novelIds[..i + 1][..i] == novelIds[..i];
      if novelIds[i] in member {
        ordered := ordered + [novelIds[i]];
      }
    }
    assert novelIds[..|novelIds|] == novelIds;
    ghost var named := ordered;
    var seen: set<Id> := {};
    for i := 0 to |ordered|
      invariant seen == Elements(ordered[..i])
    {
      seen := seen + {ordered[i]};
      assert ordered[..i + 1] == ordered[..i] + [ordered[i]];
    }
    assert ordered[..|ordered|] == ordered;
    for i := 0 to |books|
      invariant ordered == named + Select(books[..i], member - seen)
    {
      assert books[..i + 1][..i] == books[..i];
      if books[i] !in seen {
        ordered := ordered + [books[i]];
      }
    }
    assert books[..|books|] == books;
    pos := ReorderPositions(ordered);
    NumberingArranges(books, novelIds, pos);
  }

  // ------------------------------------------------ writing under a unique index

  /** The series' rows: a position each, or none. */
  type Slots = map<Id, Option<int>>

  /** No two rows hold one position; rows without one never clash. */
  predicate Unique(slots: Slots) {
    forall a, b :: a in slots && b in slots && a != b ==> slots[a] != slots[b] || slots[a].None?
  }

  /** The table while a pass runs: the rows already visited hold what they get. */
  function Midway(before: Slots, after: Slots, visited: set<Id>): Slots
    requires after.Keys == before.Keys
  {
    map id | id in before :: if id in visited then after[id] else before[id]
  }

  /** The index, checked row by row, never objects, whatever order the rows are visited in. */
  ghost predicate NeverClashes(before: Slots, after: Slots)
    requires after.Keys == before.Keys
  {
    forall visited: set<Id> :: Unique(Midway(before, after, visited))
  }

  /** No row gets a position that another row starts with. */
  predicate NoTakeover(before: Slots, after: Slots)
    requires after.Keys == before.Keys
  {
    forall a, b :: a in before && b in before && a != b ==> after[a] != before[b] || after[a].None?
  }

  /**
    A pass is safe in every row order exactly when it neither starts nor ends with a clash nor hands a
    position over.
   */
  lemma PassIsSafeIff(before: Slots, after: Slots)
    requires after.Keys == before.Keys
    ensures NeverClashes(before, after) <==> Unique(before) && Unique(after) && NoTakeover(before, after)
  {
    if NeverClashes(before, after) {
      assert Midway(before, after, {}) == before;
      assert Midway(before, after, before.Keys) == after;
      assert Unique(Midway(before, after, {})) && Unique(Midway(before, after, before.Keys));
      forall a, b | a in before && b in before && a != b
        ensures after[a] != before[b] || after[a].None?
      {
        assert Unique(Midway(before, after, {a}));
        assert Midway(before, after, {a})[a] == after[a] && Midway(before, after, {a})[b] == before[b];
      }
    }
  }

  function Negated(slots: Slots): Slots {
    map id | id in slots :: if slots[id].Some? then Some(-slots[id].value) else None
  }

  /** The second pass: named rows get their number, the others their old position back. */
  function Renumbered(slots: Slots, positions: map<Id, int>): Slots {
    map id | id in slots ::
      if id in positions then Some(positions[id])
      else if slots[id].Some? then Some(-slots[id].value) else None
  }

  /** What the two passes leave. */
  function Final(slots: Slots, positions: map<Id, int>): Slots {
    map id | id in slots :: if id in positions then Some(positions[id]) else slots[id]
  }

  lemma TwoPassesEndThere(slots: Slots, positions: map<Id, int>)
    ensures Renumbered(Negated(slots), positions) == Final(slots, positions)
  {
  }

  /** No two rows at opposite positions. */
  predicate NoMirror(slots: Slots) {
    forall a, b :: a in slots && b in slots && a != b && slots[a].Some? && slots[b].Some? ==>
      slots[a].value != -slots[b].value
  }

  /** Negating every position is safe in every row order exactly when no two rows hold opposite positions. */
  lemma FirstPassIsSafeIff(slots: Slots)
    requires Unique(slots)
    ensures NeverClashes(slots, Negated(slots)) <==> NoMirror(slots)
  {
    PassIsSafeIff(slots, Negated(slots));
  }

  predicate NonNegative(slots: Slots) {
    forall id :: id in slots && slots[id].Some? ==> slots[id].value >= 0
  }

  predicate Positive(positions: map<Id, int>) {
    && (forall id :: id in positions ==> positions[id] >= 1)
    && (forall a, b :: a in positions && b in positions && a != b ==> positions[a] != positions[b])
  }

  /** A row the request does not cover holds a position the request assigns. */
  predicate Squatter(slots: Slots, positions: map<Id, int>) {
    exists a, b :: a in slots && a !in positions && b in slots && b in positions && slots[a] == Some(positions[b])
  }

  lemma EndsUniqueIff(slots: Slots, positions: map<Id, int>)
    requires Unique(slots) && Positive(positions)
    ensures Unique(Final(slots, positions)) <==> !Squatter(slots, positions)
  {
    var after := Final(slots, positions);
    if !Squatter(slots, positions) {
      forall a, b | a in after && b in after && a != b
        ensures after[a] != after[b] || after[a].None?
      {
        assert a !in positions && b in positions ==> slots[a] != Some(positions[b]);
        assert b !in positions && a in positions ==> slots[b] != Some(positions[a]);
      }
    } else {
      var a, b :| a in slots && a !in positions && b in slots && b in positions && slots[a] == Some(positions[b]);
      assert after[a] == after[b];
    }
  }

  /** No row is given the number that another row's negated position stands at. */
  predicate NoHandover(slots: Slots, positions: map<Id, int>) {
    forall a, b :: a in slots && a in positions && b in slots && a != b && slots[b].Some? ==>
      positions[a] != -slots[b].value
  }

  /** No row the request leaves alone is opposite to another. */
  predicate NoUncoveredMirror(slots: Slots, positions: map<Id, int>) {
    forall a, b :: a in slots && a !in positions && b in slots && a != b && slots[a].Some? && slots[b].Some? ==>
      slots[a].value != -slots[b].value
  }

  lemma NegatedStaysUnique(slots: Slots)
    requires Unique(slots)
    ensures Unique(Negated(slots))
  {
  }

  lemma NoTakeoverIff(slots: Slots, positions: map<Id, int>)
    ensures (NoTakeover(Negated(slots), Final(slots, positions)))
            <==> NoHandover(slots, positions) && NoUncoveredMirror(slots, positions)
  {
    var before, after := Negated(slots), Final(slots, positions);
    if NoTakeover(before, after) {
      forall a, b | a in slots && b in slots && a != b && slots[b].Some?
        ensures a in positions ==> positions[a] != -slots[b].value
        ensures a !in positions && slots[a].Some? ==> slots[a].value != -slots[b].value
      {
        var given := after[a];
        assert given != before[b] || given.None?;
      }
    }
  }

  /**
    After the negation, renumbering is safe in every row order exactly when no uncovered row holds an
    assigned position or mirrors another, and no assigned position is the opposite of another row's.
   */
  lemma SecondPassIsSafeIff(slots: Slots, positions: map<Id, int>)
    requires Unique(slots) && Positive(positions)
    ensures (NeverClashes(Negated(slots), Renumbered(Negated(slots), positions)))
            <==> !Squatter(slots, positions) && NoHandover(slots, positions) && NoUncoveredMirror(slots, positions)
  {
    TwoPassesEndThere(slots, positions);
    NegatedStaysUnique(slots);
    PassIsSafeIff(Negated(slots), Final(slots, positions));
    NoTakeoverIff(slots, positions);
    EndsUniqueIff(slots, positions);
  }

  ghost predicate BothPassesSafe(slots: Slots, positions: map<Id, int>) {
    && NeverClashes(slots, Negated(slots))
    && NeverClashes(Negated(slots), Renumbered(Negated(slots), positions))
  }

  /**
    The whole renumbering, whatever positions are stored and whichever rows the request covers: both
    passes are safe in every row order exactly when no two rows are opposite, no row is given the
    opposite of another's position, and no uncovered row holds an assigned position.
   */
  lemma RenumberingIsSafeIff(slots: Slots, positions: map<Id, int>)
    requires Unique(slots) && Positive(positions)
    ensures BothPassesSafe(slots, positions) <==>
            NoMirror(slots) && NoHandover(slots, positions) && !Squatter(slots, positions)
  {
    FirstPassIsSafeIff(slots);
    SecondPassIsSafeIff(slots, positions);
  }

  /** With every member read there is nobody to squat: both passes are safe exactly when nothing is opposite. */
  lemma ReorderIsSafeIff(slots: Slots, books: seq<Id>, named: seq<Id>, pos: map<Id, int>)
    requires Unique(slots) && Elements(books) == slots.Keys && Arranges(books, named, pos)
    ensures BothPassesSafe(slots, pos) <==> NoMirror(slots) && NoHandover(slots, pos)
  {
    RenumberingIsSafeIff(slots, pos);
  }

  /**
    So with every member read and no position below zero, both passes go through in any row order
    and leave exactly the arrangement.
   */
  lemma ReorderNeverClashes(slots: Slots, books: seq<Id>, named: seq<Id>, pos: map<Id, int>)
    requires Unique(slots) && NonNegative(slots) && Elements(books) == slots.Keys && Arranges(books, named, pos)
    ensures BothPassesSafe(slots, pos)
    ensures forall id :: id in slots ==> Renumbered(Negated(slots), pos)[id] == Some(pos[id])
  {
    ReorderIsSafeIff(slots, books, named, pos);
  }

  /** Why one pass would not do: rotating 1, 2, 3 clashes on the way although it ends well. */
  lemma OnePassClashes()
    ensures var slots := map[1 := Some(1), 2 := Some(2), 3 := Some(3)];
            var pos := map[1 := 2, 2 := 3, 3 := 1];
            Unique(slots) && Unique(Final(slots, pos)) && !NeverClashes(slots, Final(slots, pos))
  {
    var slots := map[1 := Some(1), 2 := Some(2), 3 := Some(3)];
    var pos := map[1 := 2, 2 := 3, 3 := 1];
    PassIsSafeIff(slots, Final(slots, pos));
    assert Final(slots, pos)[1] == slots[2];
  }

  /** A position is not validated on its way in, so opposite ones can be stored; then the first pass can clash. */
  lemma OppositePositionsClash()
    ensures var slots := map[1 := Some(1), 2 := Some(-1)];
            Unique(slots) && !NeverClashes(slots, Negated(slots))
  {
    var slots := map[1 := Some(1), 2 := Some(-1)];
    FirstPassIsSafeIff(slots);
    assert slots[1].value == -slots[2].value;
  }

  /** Members 1 and 2, asked for in that order, are numbered so. */
  lemma OneThenTwo(books: seq<Id>)
    requires Elements(books) == {1, 2}
    ensures Arranges(books, [1, 2], map[1 := 1, 2 := 2])
  {
    var pos: map<Id, int> := map[1 := 1, 2 := 2];
    assert pos.Keys == {1, 2} && |pos| == |pos.Keys| == 2;
    assert FirstIndex([1, 2], 1) == 0 && FirstIndex([1, 2], 2) == 1;
    assert 1 in books && 2 in books;
  }

  const NEGATIVE: Slots := map[1 := Some(2), 2 := Some(-1)]
  const JOINED: Slots := map[1 := Some(2), 2 := Some(3), 3 := Some(1)]
  const ONE_TWO: map<Id, int> := map[1 := 1, 2 := 2]

  lemma OnlySecondPassClashes(slots: Slots, positions: map<Id, int>)
    requires Unique(slots) && Positive(positions) && NoMirror(slots)
    requires Squatter(slots, positions) || !NoHandover(slots, positions)
    ensures NeverClashes(slots, Negated(slots))
    ensures !NeverClashes(Negated(slots), Renumbered(Negated(slots), positions))
  {
    FirstPassIsSafeIff(slots);
    SecondPassIsSafeIff(slots, positions);
  }

  lemma NegativeIsFound()
    ensures Unique(NEGATIVE) && NoMirror(NEGATIVE) && NEGATIVE.Keys == {1, 2}
    ensures Positive(ONE_TWO) && !NoHandover(NEGATIVE, ONE_TWO)
  {
    assert ONE_TWO[1] == -NEGATIVE[2].value;
  }

  /** A single negative position, no two opposite: the first pass goes through and the second can clash. */
  lemma NegativePositionClashes()
    ensures Unique(NEGATIVE) && NoMirror(NEGATIVE)
    ensures Elements([2, 1]) == NEGATIVE.Keys && Arranges([2, 1], [1, 2], ONE_TWO)
    ensures NeverClashes(NEGATIVE, Negated(NEGATIVE))
    ensures !NeverClashes(Negated(NEGATIVE), Renumbered(Negated(NEGATIVE), ONE_TWO))
  {
    OneThenTwo([2, 1]);
    NegativeIsFound();
    OnlySecondPassClashes(NEGATIVE, ONE_TWO);
  }

  lemma JoinedIsFound()
    ensures Unique(JOINED) && NoMirror(JOINED) && JOINED.Keys == {1, 2, 3}
    ensures Positive(ONE_TWO) && Squatter(JOINED, ONE_TWO)
  {
    assert JOINED[3] == Some(ONE_TWO[1]);
  }

  /** A novel that joins at position 1 after the two members were read: the second pass can clash. */
  lemma LateMemberClashes()
    ensures Unique(JOINED) && NoMirror(JOINED)
    ensures Elements([1, 2]) == JOINED.Keys - {3} && Arranges([1, 2], [1, 2], ONE_TWO)
    ensures NeverClashes(JOINED, Negated(JOINED))
    ensures !NeverClashes(Negated(JOINED), Renumbered(Negated(JOINED), ONE_TWO))
  {
    OneThenTwo([1, 2]);
    JoinedIsFound();
    OnlySecondPassClashes(JOINED, ONE_TWO);
  }

  // -------------------------------------------------------------------- table

  class Series {
    var slots: Slots

    constructor (rows: Slots)
      ensures slots == rows
    {
      slots := rows;
    }

    /** One pass over the rows in some order; the index is checked after each. */
    method Pass(after: Slots) returns (ok: bool)
      requires after.Keys == slots.Keys && Unique(slots)
      modifies this
      ensures ok ==> slots == after && Unique(slots)
      ensures !ok ==> !NeverClashes(old(slots), after)
      ensures slots.Keys == old(slots).Keys
    {
      ghost var was := slots;
      var rest := slots.Keys;
      assert Midway(was, after, {}) == was;
      while rest != {}
        invariant rest <= was.Keys && slots == Midway(was, after, was.Keys - rest) && Unique(slots)
        decreases |rest|
      {
        var id := Any(rest);
        assert Midway(was, after, was.Keys - rest)[id := after[id]] == Midway(was, after, was.Keys - (rest - {id}));
        slots := slots[id := after[id]];
        rest := rest - {id};
        if !Unique(slots) {
          return false;
        }
      }
      assert Midway(was, after, was.Keys) == after;
      return true;
    }

    /** Both passes in one transaction, which a clash rolls back. */
    method SetSeriesOrder(positions: map<Id, int>) returns (ok: bool)
      requires Unique(slots)
      modifies this
      ensures Unique(slots)
      ensures ok ==> slots == Final(old(slots), positions)
      ensures !ok ==> slots == old(slots)
      ensures !ok ==> !NoMirror(old(slots)) || !NeverClashes(Negated(old(slots)), Final(old(slots), positions))
    {
      if positions == map[] {
        return true;
      }
      var was := slots;
      TwoPassesEndThere(was, positions);
      FirstPassIsSafeIff(was);
      ok := Pass(Negated(slots));
      if ok {
        ok := Pass(Renumbered(slots, positions));
      }
      if !ok {
        slots := was;
      }
    }
  }
}
