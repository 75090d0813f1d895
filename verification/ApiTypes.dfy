/**
 * The type graph of an API header: collecting the types reachable from the root structs, flagging
 * those that contain a variable-length array, and emitting conversion functions in call order.
 */
module ApiTypes {
  import opened Util

  /** Type names; only their identity and order matter. */
  type Name = nat

  /** A member: the struct or union it nests, if any, and whether it is annotated var_len_array. */
  datatype Member = Member(nested: Option<Name>, isVla: bool)

  datatype Definition = Definition(isUnion: bool, members: seq<Member>)

  /** What the header defines. */
  type Header = map<Name, Definition>

  function Nested(members: seq<Member>): set<Name> {
    set i | 0 <= i < |members| && members[i].nested.Some? :: members[i].nested.value
  }

  predicate HasVla(members: seq<Member>) { exists i :: 0 <= i < |members| && members[i].isVla }

  function ToSet(xs: seq<Name>): set<Name> { set x | x in xs }

  function Deps(h: Header, x: Name): set<Name> { if x in h then Nested(h[x].members) else {} }

  predicate ClosedUnder(h: Header, s: set<Name>) {
    forall x, d :: x in s && d in Deps(h, x) ==> d in s
  }

  /** The least set that holds the roots and everything nested in its members. */
  ghost predicate IsReachable(h: Header, roots: set<Name>, s: set<Name>) {
    && roots <= s && ClosedUnder(h, s)
    && forall t :: roots <= t && ClosedUnder(h, t) ==> s <= t
  }

  // ----------------------------------------------------------------------------------------
  // Acyclic headers

  /** A type is ranked above the types nested in it. */
  ghost predicate Ranked(h: Header, rank: Name -> nat) {
    forall x, d :: d in Deps(h, x) ==> rank(d) < rank(x)
  }

  /** The type and everything nested in it, directly or not. */
  ghost function Closure(h: Header, rank: Name -> nat, x: Name): set<Name>
    requires Ranked(h, rank)
    decreases rank(x)
  {
    {x} + (set d, y | d in Deps(h, x) && y in Closure(h, rank, d) :: y)
  }

  lemma ClosureStep(h: Header, rank: Name -> nat, x: Name, d: Name)
    requires Ranked(h, rank) && d in Deps(h, x)
    ensures Closure(h, rank, d) <= Closure(h, rank, x)
  {
  }

  lemma {:induction false} ClosureClosed(h: Header, rank: Name -> nat, x: Name)
    requires Ranked(h, rank)
    ensures ClosedUnder(h, Closure(h, rank, x))
    decreases rank(x)
  {
    forall y, e | y in Closure(h, rank, x) && e in Deps(h, y) ensures e in Closure(h, rank, x) {
      if y == x {
        assert e in Closure(h, rank, e);
      } else {
        var d :| d in Deps(h, x) && y in Closure(h, rank, d);
        ClosureClosed(h, rank, d);
        assert e in Closure(h, rank, d);
      }
    }
  }

  lemma {:induction false} ClosureLeast(h: Header, rank: Name -> nat, x: Name, s: set<Name>)
    requires Ranked(h, rank) && x in s && ClosedUnder(h, s)
    ensures Closure(h, rank, x) <= s
    decreases rank(x)
  {
    forall y | y in Closure(h, rank, x) ensures y in s {
      if y != x {
        var d :| d in Deps(h, x) && y in Closure(h, rank, d);
        ClosureLeast(h, rank, d, s);
      }
    }
  }

  // ----------------------------------------------------------------------------------------
  // The parsed tables

  datatype Entry = Entry(appearsIn: set<Name>, dependencies: set<Name>, hasVlaMember: bool, isUnion: bool)

  type Table = map<Name, Entry>

  /** A list of the elements of a set, in some order. */
  method AsList(s: set<Name>) returns (list: seq<Name>)
    ensures |list| == |s| && forall x :: x in list <==> x in s
  {
    list := [];
    var rest := s;
    while rest != {}
      invariant rest <= s && |list| + |rest| == |s|
      invariant forall x :: x in list <==> x in s && x !in rest
      decreases |rest|
    {
      var x :| x in rest;
      rest := rest - {x};
      list := list + [x];
    }
  }

  class ApiParser {
    const header: Header
    var structsAndUnions: Table

    constructor (header: Header)
      ensures this.header == header && structsAndUnions == map[]
    {
      this.header := header;
      structsAndUnions := map[];
    }

    /** One entry per definition, as `_parse_structs_and_unions` first builds it. */
    method MakeEntry(members: seq<Member>, isUnion: bool, pending: seq<Name>) returns (entry: Entry, work: seq<Name>)
      ensures entry == Entry({}, Nested(members), HasVla(members), isUnion)
      ensures forall x :: x in work <==> x in pending || x in Nested(members)
    {
      var dependencies, hasVla := {}, false;
      work := pending;
      for i := 0 to |members|
        invariant dependencies == Nested(members[..i]) && hasVla == HasVla(members[..i])
        invariant forall x :: x in work <==> x in pending || x in Nested(members[..i])
      {
        NestedStep(members, i);
        if members[i].nested.Some? {
          dependencies := dependencies + {members[i].nested.value};
          work := work + [members[i].nested.value];
        }
        if !hasVla {
          if members[i].isVla {
            hasVla := true;
          }
        }
      }
      assert members[..|members|] == members;
      entry := Entry({}, dependencies, hasVla, isUnion);
    }

    /**
     * The reachability worklist: it succeeds exactly when every reachable type is defined, and then
     * holds exactly the reachable types.
     */
    method CollectTypes(roots: seq<Name>) returns (ok: bool)
      requires structsAndUnions == map[]
      modifies this
      ensures ok ==> structsAndUnions.Keys <= header.Keys
      ensures ok ==> forall x :: x in structsAndUnions ==> structsAndUnions[x] == Parsed(header, x)
      ensures ok ==> IsReachable(header, ToSet(roots), structsAndUnions.Keys)
      ensures !ok ==> forall t :: ToSet(roots) <= t && ClosedUnder(header, t) ==> !(t <= header.Keys)
    {
      hide CollectInv, IsReachable, ClosedUnder, Nested, HasVla, ToSet;
      var work := roots;
      CollectStart(header, roots);
      while work != []
        invariant structsAndUnions.Keys <= header.Keys
        invariant CollectInv(header, ToSet(roots), structsAndUnions, ToSet(work))
        decreases |header.Keys - structsAndUnions.Keys|, |work|
      {
        var typeName := work[|work| - 1];
        ghost var pending := work;
        work := work[..|work| - 1];
        ToSetPop(pending);
        if typeName in structsAndUnions {
          CollectKnown(header, ToSet(roots), structsAndUnions, ToSet(work), typeName);
          continue;
        }
        if typeName !in header {
          CollectMissing(header, ToSet(roots), structsAndUnions, ToSet(pending), typeName);
          return false;
        }
        var entry, more := MakeEntry(header[typeName].members, header[typeName].isUnion, work);
        CollectNew(header, ToSet(roots), structsAndUnions, ToSet(work), typeName);
        ToSetUnion(more, work, Deps(header, typeName));
        work := more;
        ghost var left := header.Keys - structsAndUnions.Keys;
        structsAndUnions := structsAndUnions[typeName := entry];
        assert header.Keys - structsAndUnions.Keys == left - {typeName};
      }
      CollectEnd(header, ToSet(roots), structsAndUnions);
      ok := true;
    }

    /** `typeName` is added to the entry of every type nested in it. */
    method LinkOne(typeName: Name, ghost start: Table, ghost done: set<Name>)
      requires DepsInside(start) && typeName in start
      requires structsAndUnions == Linked(start, done)
      modifies this
      ensures structsAndUnions == Linked(start, done + {typeName})
    {
      hide LinkedEntry;
      LinkedKeeps(start, done, typeName);
      var deps := AsList(structsAndUnions[typeName].dependencies);
      for i := 0 to |deps|
        invariant structsAndUnions.Keys == start.Keys
        invariant forall x :: x in start ==>
                    structsAndUnions[x] == LinkedEntry(start, done, x, if x in deps[..i] then {typeName} else {})
      {
        var d := deps[i];
        assert d in start[typeName].dependencies;
        assert deps[..i + 1] == deps[..i] + [d];
        LinkedExtra(start, done, d, if d in deps[..i] then {typeName} else {}, typeName);
        structsAndUnions := structsAndUnions[d := structsAndUnions[d].(
          appearsIn := structsAndUnions[d].appearsIn + {typeName})];
      }
      assert deps[..|deps|] == deps;
      LinkedStep(start, done, typeName, structsAndUnions);
    }

    /** The reverse linkage: each type learns in which types it appears. */
    method LinkReverse()
      requires DepsInside(structsAndUnions)
      requires forall x :: x in structsAndUnions ==> structsAndUnions[x].appearsIn == {}
      modifies this
      ensures structsAndUnions == Linked(old(structsAndUnions), old(structsAndUnions).Keys)
    {
      hide LinkedEntry, Linked;
      ghost var start := structsAndUnions;
      var todo := structsAndUnions.Keys;
      LinkedNothing(start);
      assert start.Keys - todo == {};
      while todo != {}
        invariant todo <= start.Keys
        invariant structsAndUnions == Linked(start, start.Keys - todo)
        decreases |todo|
      {
        var typeName :| typeName in todo;
        LinkOne(typeName, start, start.Keys - todo);
        assert start.Keys - (todo - {typeName}) == start.Keys - todo + {typeName};
        todo := todo - {typeName};
      }
      assert start.Keys - todo == start.Keys;
    }

    /**
     * Marking everything around the listed types, with a plain worklist that does not remember what
     * it has visited: a type weighs more than all the types around it, so the list runs out.
     */
    method MarkAround(list: seq<Name>, ghost start: Table, ghost todo: set<Name>, ghost rank: Name -> nat,
                      ghost top: nat)
      requires ParentsInside(start) && ParentsRankHigher(start, rank)
      requires forall x :: x in start ==> rank(x) <= top
      requires SameButFlags(start, structsAndUnions) && forall x :: x in list ==> x in start
      requires BubbleInv(start, structsAndUnions, todo, ToSet(list))
      modifies this
      ensures SameButFlags(start, structsAndUnions)
      ensures BubbleInv(start, structsAndUnions, todo, {})
    {
      hide BubbleInv, ToSet, Weights, ParentsRankHigher;
      var work := list;
      while work != []
        invariant SameButFlags(start, structsAndUnions)
        invariant forall x :: x in work ==> x in start
        invariant BubbleInv(start, structsAndUnions, todo, ToSet(work))
        decreases Weights(|start| + 1, rank, top, work)
      {
        var n := |work| - 1;
        var typeToMark := work[n];
        ToSetPop(work);
        var parents := AsList(structsAndUnions[typeToMark].appearsIn);
        ParentCount(start, typeToMark);
        ParentRank(start, rank, typeToMark);
        WeightsDrop(|start| + 1, rank, top, work[..n], typeToMark, parents);
        BubbleMark(start, structsAndUnions, todo, ToSet(work[..n]), typeToMark);
        ToSetConcat(work[..n], parents);
        ToSetOfList(parents, structsAndUnions[typeToMark].appearsIn);
        structsAndUnions := structsAndUnions[typeToMark := structsAndUnions[typeToMark].(hasVlaMember := true)];
        work := work[..n] + parents;
      }
      ToSetNil();
    }

    /**
     * Bubbling up the flag: from every flagged type to all types around it.  Afterwards the flagged
     * types are the least set that holds those flagged before and is closed under containment.
     */
    method BubbleUp(ghost rank: Name -> nat, ghost top: nat)
      requires ParentsInside(structsAndUnions) && ParentsRankHigher(structsAndUnions, rank)
      requires forall x :: x in structsAndUnions ==> rank(x) <= top
      modifies this
      ensures SameButFlags(old(structsAndUnions), structsAndUnions)
      ensures IsUpClosure(structsAndUnions, Flagged(old(structsAndUnions)), Flagged(structsAndUnions))
    {
      hide BubbleInv, Flagged, IsUpClosure, ToSet, ParentsRankHigher;
      ghost var start := structsAndUnions;
      var todo := structsAndUnions.Keys;
      BubbleStart(start);
      while todo != {}
        invariant todo <= start.Keys && SameButFlags(start, structsAndUnions)
        invariant BubbleInv(start, structsAndUnions, todo, {})
        decreases |todo|
      {
        var typeName :| typeName in todo;
        assert todo == todo - {typeName} + {typeName};
        todo := todo - {typeName};
        if structsAndUnions[typeName].hasVlaMember {
          var work := AsList(structsAndUnions[typeName].appearsIn);
          ToSetOfList(work, structsAndUnions[typeName].appearsIn);
          BubbleTake(start, structsAndUnions, todo, typeName, ToSet(work));
          MarkAround(work, start, todo, rank, top);
        } else {
          BubbleSkip(start, structsAndUnions, todo, typeName);
        }
      }
      BubbleEnd(start, structsAndUnions);
    }

    /**
     * The whole of `_parse_structs_and_unions`: exactly the reachable types, linked both ways, each
     * flagged exactly if a variable-length array lies somewhere inside it.
     */
    method Parse(roots: seq<Name>, ghost rank: Name -> nat, ghost top: nat) returns (ok: bool)
      requires structsAndUnions == map[]
      requires Ranked(header, rank) && forall x :: x in header ==> rank(x) <= top
      modifies this
      ensures ok ==> structsAndUnions.Keys <= header.Keys
      ensures ok ==> IsReachable(header, ToSet(roots), structsAndUnions.Keys)
      ensures ok ==> forall x :: x in structsAndUnions ==>
                       && structsAndUnions[x].dependencies == Deps(header, x)
                       && structsAndUnions[x].appearsIn == Parents(header, structsAndUnions.Keys, x)
                       && structsAndUnions[x].isUnion == header[x].isUnion
                       && (structsAndUnions[x].hasVlaMember <==> ContainsVla(header, rank, x))
      ensures !ok ==> forall t :: ToSet(roots) <= t && ClosedUnder(header, t) ==> !(t <= header.Keys)
    {
      hide ToSet, IsUpClosure, ContainsVla, IsReachable, HasVla, Nested, Linked, ParentsInside, ParentsRankHigher,
           Flagged, Parents, Ranked;
      ok := CollectTypes(roots);
      if ok {
        ReachableClosed(header, ToSet(roots), structsAndUnions.Keys);
        ParsedInside(header, structsAndUnions);
        LinkedFacts(header, rank, structsAndUnions);
        LinkReverse();
        ghost var linked := structsAndUnions;
        BubbleUp(rank, top);
        ghost var t := structsAndUnions;
        forall x | x in t ensures t[x].hasVlaMember <==> ContainsVla(header, rank, x) {
          FlagsAreRight(header, rank, linked, t, x);
        }
      }
    }
  }

  lemma ToSetPop(xs: seq<Name>)
    requires xs != []
    ensures ToSet(xs) == ToSet(xs[..|xs| - 1]) + {xs[|xs| - 1]}
    ensures xs == xs[..|xs| - 1] + [xs[|xs| - 1]]
  {
    var n := |xs| - 1;
    assert xs == xs[..n] + [xs[n]];
  }

  lemma ToSetUnion(ys: seq<Name>, xs: seq<Name>, s: set<Name>)
    requires forall x :: x in ys <==> x in xs || x in s
    ensures ToSet(ys) == ToSet(xs) + s
  {
  }

  /** Everything required so far is collected or listed, and nothing that is not required. */
  ghost predicate CollectInv(h: Header, roots: set<Name>, table: Table, work: set<Name>) {
    && table.Keys <= h.Keys
    && (forall x :: x in table ==> table[x] == Parsed(h, x))
    && roots <= table.Keys + work
    && (forall x, d :: x in table && d in Deps(h, x) ==> d in table.Keys + work)
    && (forall t :: roots <= t && ClosedUnder(h, t) ==> table.Keys + work <= t)
  }

  lemma CollectStart(h: Header, roots: seq<Name>)
    ensures CollectInv(h, ToSet(roots), map[], ToSet(roots))
  {
  }

  lemma CollectKnown(h: Header, roots: set<Name>, table: Table, work: set<Name>, x: Name)
    requires CollectInv(h, roots, table, work + {x}) && x in table
    ensures CollectInv(h, roots, table, work)
  {
    assert table.Keys + (work + {x}) == table.Keys + work;
  }

  lemma CollectNew(h: Header, roots: set<Name>, table: Table, work: set<Name>, x: Name)
    requires CollectInv(h, roots, table, work + {x}) && x in h
    ensures CollectInv(h, roots, table[x := Parsed(h, x)], work + Deps(h, x))
  {
    var table' := table[x := Parsed(h, x)];
    assert table'.Keys + (work + Deps(h, x)) == table.Keys + (work + {x}) + Deps(h, x);
  }

  lemma CollectMissing(h: Header, roots: set<Name>, table: Table, work: set<Name>, x: Name)
    requires CollectInv(h, roots, table, work) && x in work && x !in h
    ensures forall t :: roots <= t && ClosedUnder(h, t) ==> !(t <= h.Keys)
  {
  }

  lemma CollectEnd(h: Header, roots: set<Name>, table: Table)
    requires CollectInv(h, roots, table, ToSet([]))
    ensures IsReachable(h, roots, table.Keys)
    ensures forall x :: x in table ==> x in h && table[x] == Parsed(h, x)
  {
    assert table.Keys + ToSet([]) == table.Keys;
  }

  /** The entry a definition gives rise to. */
  function Parsed(h: Header, x: Name): Entry
    requires x in h
  {
    Entry({}, Nested(h[x].members), HasVla(h[x].members), h[x].isUnion)
  }

  lemma NestedStep(members: seq<Member>, i: nat)
    requires i < |members|
    ensures Nested(members[..i + 1])
         == Nested(members[..i]) + (if members[i].nested.Some? then {members[i].nested.value} else {})
    ensures HasVla(members[..i + 1]) == (HasVla(members[..i]) || members[i].isVla)
  {
    assert members[..i + 1] == members[..i] + [members[i]];
    var front, all := members[..i], members[..i + 1];
    forall x | x in Nested(all) ensures x in Nested(front) || (members[i].nested == Some(x)) {
      var k :| 0 <= k < |all| && all[k].nested.Some? && all[k].nested.value == x;
      if k < i { assert front[k] == all[k]; }
    }
    forall x | x in Nested(front) ensures x in Nested(all) {
      var k :| 0 <= k < |front| && front[k].nested.Some? && front[k].nested.value == x;
      assert all[k] == front[k];
    }
    assert all[i] == members[i];
    if HasVla(front) {
      var k :| 0 <= k < |front| && front[k].isVla;
      assert all[k].isVla;
    }
  }

  // ----------------------------------------------------------------------------------------
  // Reverse linkage

  predicate DepsInside(t: Table) { forall x, d :: x in t && d in t[x].dependencies ==> d in t }

  /** The entry of `x` once the types in `done` have been linked, plus `extra`. */
  function LinkedEntry(t: Table, done: set<Name>, x: Name, extra: set<Name>): Entry
    requires x in t
  {
    t[x].(appearsIn := (set p | p in done && p in t && x in t[p].dependencies) + extra)
  }

  function Linked(t: Table, done: set<Name>): Table {
    map x | x in t :: LinkedEntry(t, done, x, {})
  }

  lemma LinkedKeeps(t: Table, done: set<Name>, x: Name)
    requires x in t
    ensures LinkedEntry(t, done, x, {}).dependencies == t[x].dependencies
  {
  }

  lemma LinkedExtra(t: Table, done: set<Name>, d: Name, extra: set<Name>, x: Name)
    requires d in t && extra <= {x}
    ensures var entry := LinkedEntry(t, done, d, extra);
            entry.(appearsIn := entry.appearsIn + {x}) == LinkedEntry(t, done, d, {x})
  {
  }

  lemma LinkedStep(t: Table, done: set<Name>, x: Name, t': Table)
    requires x in t && t'.Keys == t.Keys
    requires forall y :: y in t ==>
               t'[y] == LinkedEntry(t, done, y, if y in t[x].dependencies then {x} else {})
    ensures t' == Linked(t, done + {x})
  {
    forall y | y in t ensures t'[y] == LinkedEntry(t, done + {x}, y, {}) {
      assert (set p | p in done + {x} && p in t && y in t[p].dependencies)
          == (set p | p in done && p in t && y in t[p].dependencies)
             + (if y in t[x].dependencies then {x} else {});
    }
  }

  lemma LinkedNothing(t: Table)
    requires forall x :: x in t ==> t[x].appearsIn == {}
    ensures Linked(t, {}) == t
  {
    assert forall x :: x in t ==> Linked(t, {})[x].appearsIn == {};
  }

  // ----------------------------------------------------------------------------------------
  // Flags

  predicate ParentsInside(t: Table) { forall x, p :: x in t && p in t[x].appearsIn ==> p in t }

  ghost predicate ParentsRankHigher(t: Table, rank: Name -> nat) {
    forall x, p :: x in t && p in t[x].appearsIn ==> rank(x) < rank(p)
  }

  predicate SameButFlags(t: Table, t': Table) {
    && t.Keys == t'.Keys
    && forall x :: x in t ==> t'[x] == t[x].(hasVlaMember := t'[x].hasVlaMember)
  }

  function Flagged(t: Table): set<Name> { set x | x in t && t[x].hasVlaMember }

  predicate UpClosed(t: Table, s: set<Name>) {
    forall x, p :: x in s && x in t && p in t[x].appearsIn ==> p in s
  }

  /** `s` is the least set holding `base` and every type around one of its members. */
  ghost predicate IsUpClosure(t: Table, base: set<Name>, s: set<Name>) {
    && base <= s && UpClosed(t, s)
    && forall u :: base <= u && UpClosed(t, u) ==> s <= u
  }

  /**
   * Every flagged type has its parents flagged or listed, unless it was flagged from the start and
   * its turn is still to come; and nothing is flagged or listed that need not be.
   */
  ghost predicate BubbleInv(start: Table, t: Table, todo: set<Name>, work: set<Name>) {
    && Flagged(start) <= Flagged(t)
    && (forall x, p :: x in Flagged(t) && p in t[x].appearsIn ==>
          p in Flagged(t) || p in work || (x in Flagged(start) && x in todo))
    && (forall u :: Flagged(start) <= u && UpClosed(start, u) ==> Flagged(t) <= u && work <= u)
  }

  lemma BubbleStart(t: Table)
    ensures BubbleInv(t, t, t.Keys, {})
  {
  }

  lemma BubbleTake(start: Table, t: Table, todo: set<Name>, x: Name, work: set<Name>)
    requires SameButFlags(start, t) && BubbleInv(start, t, todo + {x}, {})
    requires x in t && t[x].hasVlaMember && work == t[x].appearsIn
    ensures BubbleInv(start, t, todo, work)
  {
  }

  lemma BubbleSkip(start: Table, t: Table, todo: set<Name>, x: Name)
    requires SameButFlags(start, t) && BubbleInv(start, t, todo + {x}, {})
    requires x in t && !t[x].hasVlaMember
    ensures BubbleInv(start, t, todo, {})
  {
  }

  lemma BubbleMark(start: Table, t: Table, todo: set<Name>, work: set<Name>, y: Name)
    requires SameButFlags(start, t) && BubbleInv(start, t, todo, work + {y}) && y in t
    ensures var t' := t[y := t[y].(hasVlaMember := true)];
            SameButFlags(start, t') && BubbleInv(start, t', todo, work + t[y].appearsIn)
  {
    var t' := t[y := t[y].(hasVlaMember := true)];
    assert Flagged(t') == Flagged(t) + {y};
  }

  lemma BubbleEnd(start: Table, t: Table)
    requires SameButFlags(start, t) && BubbleInv(start, t, {}, {})
    ensures IsUpClosure(t, Flagged(start), Flagged(t))
  {
    assert forall u :: UpClosed(t, u) <==> UpClosed(start, u);
  }

  lemma ToSetNil()
    ensures ToSet([]) == {}
  {
  }

  lemma ToSetOfList(xs: seq<Name>, s: set<Name>)
    requires forall x :: x in xs <==> x in s
    ensures ToSet(xs) == s
  {
  }

  lemma ParentRank(t: Table, rank: Name -> nat, x: Name)
    requires x in t && ParentsRankHigher(t, rank)
    ensures forall p :: p in t[x].appearsIn ==> rank(x) < rank(p)
  {
  }

  lemma ToSetConcat(xs: seq<Name>, ys: seq<Name>)
    ensures ToSet(xs + ys) == ToSet(xs) + ToSet(ys)
  {
  }

  // Termination of the unguarded worklist: a type weighs more than all its parents together.

  function Pow(b: nat, e: nat): nat { if e == 0 then 1 else Times(b, Pow(b, e - 1)) }

  function Weight(b: nat, rank: Name -> nat, top: nat, x: Name): nat {
    if rank(x) <= top then Pow(b, top - rank(x)) else 0
  }

  function Weights(b: nat, rank: Name -> nat, top: nat, xs: seq<Name>): nat {
    if xs == [] then 0
    else Weights(b, rank, top, xs[..|xs| - 1]) + Weight(b, rank, top, xs[|xs| - 1])
  }

  lemma {:induction false} WeightsConcat(b: nat, rank: Name -> nat, top: nat, xs: seq<Name>, ys: seq<Name>)
    ensures Weights(b, rank, top, xs + ys) == Weights(b, rank, top, xs) + Weights(b, rank, top, ys)
    decreases |ys|
  {
    if ys == [] {
      assert xs + ys == xs;
    } else {
      WeightsConcat(b, rank, top, xs, ys[..|ys| - 1]);
      assert (xs + ys)[..|xs + ys| - 1] == xs + ys[..|ys| - 1];
    }
  }

  lemma {:induction false} TimesGrows(m: nat, b: nat, w: nat)
    requires m < b && w > 0
    ensures Times(m, w) < Times(b, w)
    decreases b
  {
    if m < b - 1 { TimesGrows(m, b - 1, w); }
  }

  lemma {:induction false} PowMonotone(b: nat, d: nat, e: nat)
    requires b > 0 && d <= e
    ensures 0 < Pow(b, d) <= Pow(b, e)
    decreases e
  {
    if e > 0 {
      PowMonotone(b, if d < e then d else d - 1, e - 1);
      var w := Pow(b, e - 1);
      TimesGrows(0, b, w);
      assert Times(1, w) == w;
      if b > 1 { TimesGrows(1, b, w); }
    }
  }

  lemma {:induction false} WeightsBound(b: nat, rank: Name -> nat, top: nat, xs: seq<Name>, e: nat)
    requires b > 0 && forall x :: x in xs ==> top < rank(x) || top - rank(x) <= e
    ensures Weights(b, rank, top, xs) <= Times(|xs|, Pow(b, e))
    decreases |xs|
  {
    hide Pow;
    if xs != [] {
      var n := |xs| - 1;
      WeightsBound(b, rank, top, xs[..n], e);
      var x := xs[n];
      assert x in xs;
      PowMonotone(b, if rank(x) <= top then top - rank(x) else 0, e);
    }
  }

  lemma ParentsWeigh(b: nat, rank: Name -> nat, top: nat, x: Name, parents: seq<Name>)
    requires |parents| < b && rank(x) <= top
    requires forall p :: p in parents ==> rank(x) < rank(p) <= top
    ensures Weights(b, rank, top, parents) < Pow(b, top - rank(x))
  {
    hide Weights;
    var h := top - rank(x);
    if parents == [] {
      WeightsNil(b, rank, top);
      PowMonotone(b, h, h);
    } else {
      assert parents[0] in parents;
      PowMonotone(b, h - 1, h - 1);
      TimesGrows(|parents|, b, Pow(b, h - 1));
      WeightsBound(b, rank, top, parents, h - 1);
    }
  }

  lemma WeightsDrop(b: nat, rank: Name -> nat, top: nat, work: seq<Name>, x: Name, parents: seq<Name>)
    requires |parents| < b && rank(x) <= top
    requires forall p :: p in parents ==> rank(x) < rank(p) <= top
    ensures Weights(b, rank, top, work + parents) < Weights(b, rank, top, work + [x])
  {
    hide Weights, Pow;
    ParentsWeigh(b, rank, top, x, parents);
    WeightsConcat(b, rank, top, work, parents);
    WeightsConcat(b, rank, top, work, [x]);
    WeightsOne(b, rank, top, x);
  }

  lemma WeightsOne(b: nat, rank: Name -> nat, top: nat, x: Name)
    ensures Weights(b, rank, top, [x]) == Weight(b, rank, top, x)
  {
    assert [x][..0] == [];
  }

  lemma WeightsNil(b: nat, rank: Name -> nat, top: nat)
    ensures Weights(b, rank, top, []) == 0
  {
  }

  lemma ParentCount(t: Table, x: Name)
    requires x in t && ParentsInside(t)
    ensures |t[x].appearsIn| <= |t|
  {
    SubsetSize(t[x].appearsIn, t.Keys);
  }

  // ----------------------------------------------------------------------------------------
  // What the flags mean

  /** A type is flagged exactly if it, or a type nested in it at any depth, has such a member itself. */
  lemma FlagMeaning(h: Header, rank: Name -> nat, t: Table, flagged: set<Name>, x: Name)
    requires Ranked(h, rank) && t.Keys <= h.Keys && ClosedUnder(h, t.Keys)
    requires forall y :: y in t ==> t[y].appearsIn == Parents(h, t.Keys, y)
    requires IsUpClosure(t, DirectVla(h, t.Keys), flagged)
    requires x in t
    ensures x in flagged <==> exists y :: y in Closure(h, rank, x) && y in h && HasVla(h[y].members)
  {
    var direct := DirectVla(h, t.Keys);
    var u := set z | z in t && exists y :: y in Closure(h, rank, z) && y in h && HasVla(h[y].members);
    forall z | z in direct ensures z in u {
      assert z in Closure(h, rank, z);
    }
    forall z, q | z in u && z in t && q in t[z].appearsIn ensures q in u {
      ClosureStep(h, rank, q, z);
    }
    assert flagged <= u;
    if y :| y in Closure(h, rank, x) && y in h && HasVla(h[y].members) {
      ClosureLeast(h, rank, x, t.Keys);
      FlagsReach(h, rank, t, flagged, x, y);
    }
  }

  lemma {:induction false} FlagsReach(h: Header, rank: Name -> nat, t: Table, flagged: set<Name>, x: Name, y: Name)
    requires Ranked(h, rank) && ClosedUnder(h, t.Keys) && x in t
    requires forall z :: z in t ==> t[z].appearsIn == Parents(h, t.Keys, z)
    requires UpClosed(t, flagged) && y in flagged && y in Closure(h, rank, x)
    ensures x in flagged
    decreases rank(x)
  {
    if y != x {
      var d :| d in Deps(h, x) && y in Closure(h, rank, d);
      FlagsReach(h, rank, t, flagged, d, y);
    }
  }

  /** The types with a variable-length array of their own. */
  function DirectVla(h: Header, within: set<Name>): set<Name>
    requires within <= h.Keys
  {
    set y | y in within && HasVla(h[y].members)
  }

  lemma LinkedFacts(h: Header, rank: Name -> nat, t: Table)
    requires Ranked(h, rank) && t.Keys <= h.Keys
    requires forall x :: x in t ==> t[x] == Parsed(h, x)
    ensures var l := Linked(t, t.Keys);
            && l.Keys == t.Keys && ParentsInside(l) && ParentsRankHigher(l, rank)
            && forall x :: x in l ==>
                 && l[x].appearsIn == Parents(h, t.Keys, x) && l[x].dependencies == Deps(h, x)
                 && l[x].isUnion == h[x].isUnion && l[x].hasVlaMember == HasVla(h[x].members)
  {
    hide HasVla, Nested;
    var l := Linked(t, t.Keys);
    forall x | x in l ensures l[x].appearsIn == Parents(h, t.Keys, x) {
      assert forall p :: p in t ==> t[p].dependencies == Deps(h, p);
    }
  }

  function Parents(h: Header, within: set<Name>, x: Name): set<Name> {
    set p | p in within && x in Deps(h, p)
  }

  ghost predicate ContainsVla(h: Header, rank: Name -> nat, x: Name)
    requires Ranked(h, rank)
  {
    exists y :: y in Closure(h, rank, x) && y in h && HasVla(h[y].members)
  }

  lemma ParsedInside(h: Header, t: Table)
    requires ClosedUnder(h, t.Keys) && t.Keys <= h.Keys && forall x :: x in t ==> t[x] == Parsed(h, x)
    ensures DepsInside(t)
    ensures forall x :: x in t ==> t[x].appearsIn == {}
  {
  }

  lemma ReachableClosed(h: Header, roots: set<Name>, s: set<Name>)
    requires IsReachable(h, roots, s)
    ensures ClosedUnder(h, s)
  {
  }

  lemma FlagsAreRight(h: Header, rank: Name -> nat, linked: Table, t: Table, x: Name)
    requires Ranked(h, rank) && t.Keys <= h.Keys && ClosedUnder(h, t.Keys) && x in t
    requires SameButFlags(linked, t) && IsUpClosure(t, Flagged(linked), Flagged(t))
    requires forall y :: y in linked ==>
               linked[y].appearsIn == Parents(h, t.Keys, y) && linked[y].hasVlaMember == HasVla(h[y].members)
    ensures t[x].hasVlaMember <==> ContainsVla(h, rank, x)
  {
    hide HasVla, IsUpClosure;
    assert Flagged(linked) == DirectVla(h, t.Keys);
    FlagMeaning(h, rank, t, Flagged(t), x);
  }

  // ----------------------------------------------------------------------------------------
  // Emitting conversion functions

  /** The types with a conversion function that this one may call, at any depth. */
  ghost function Needed(h: Header, rank: Name -> nat, x: Name): set<Name>
    requires Ranked(h, rank)
  {
    set y | y in Closure(h, rank, x) && y in h && !h[y].isUnion
  }

  /** No function is emitted twice, and each comes after everything it needs. */
  ghost predicate InCallOrder(h: Header, rank: Name -> nat, out: seq<Name>)
    requires Ranked(h, rank)
  {
    && (forall i, j :: 0 <= i < j < |out| ==> out[i] != out[j])
    && (forall k :: 0 <= k < |out| ==> out[k] in h && !h[out[k]].isUnion)
    && (forall k :: 0 <= k < |out| ==> Needed(h, rank, out[k]) <= ToSet(out[..k + 1]))
  }

  class ConversionGenerator {
    const header: Header
    var alreadyGenerated: set<Name>
    var out: seq<Name>

    constructor (header: Header)
      ensures this.header == header && alreadyGenerated == {} && out == []
    {
      this.header := header;
      alreadyGenerated, out := {}, [];
    }

    ghost predicate Valid(rank: Name -> nat)
      requires Ranked(header, rank)
      reads this
    {
      alreadyGenerated == ToSet(out) && InCallOrder(header, rank, out)
    }

    /** `_gen_conversion_function`: the nested types first, then the type itself unless a union. */
    method GenConversionFunction(chreType: Name, ghost rank: Name -> nat)
      requires Ranked(header, rank) && chreType in header && ClosedUnder(header, header.Keys)
      requires Valid(rank)
      modifies this
      ensures Valid(rank) && old(out) <= out && old(alreadyGenerated) <= alreadyGenerated
      ensures Needed(header, rank, chreType) <= alreadyGenerated
      decreases rank(chreType)
    {
      hide InCallOrder, Needed, Nested;
      var deps := AsList(Deps(header, chreType));
      for i := 0 to |deps|
        invariant Valid(rank) && old(out) <= out && old(alreadyGenerated) <= alreadyGenerated
        invariant forall k :: 0 <= k < i ==> Needed(header, rank, deps[k]) <= alreadyGenerated
      {
        assert deps[i] in Deps(header, chreType);
        if deps[i] !in alreadyGenerated {
          GenConversionFunction(deps[i], rank);
        } else {
          AlreadyNeeded(header, rank, out, deps[i]);
        }
      }
      NeededSplits(header, rank, chreType, alreadyGenerated, deps);
      if chreType in alreadyGenerated || header[chreType].isUnion {
        return;
      }
      EmitKeepsOrder(header, rank, out, chreType);
      alreadyGenerated := alreadyGenerated + {chreType};
      out := out + [chreType];
    }

    /** `_gen_conversion_functions`. */
    method GenConversionFunctions(roots: seq<Name>, ghost rank: Name -> nat)
      requires Ranked(header, rank) && ClosedUnder(header, header.Keys)
      requires forall r :: r in roots ==> r in header
      requires alreadyGenerated == {} && out == []
      modifies this
      ensures InCallOrder(header, rank, out)
      ensures forall r :: r in roots ==> Needed(header, rank, r) <= ToSet(out)
    {
      for i := 0 to |roots|
        invariant Valid(rank)
        invariant forall k :: 0 <= k < i ==> Needed(header, rank, roots[k]) <= ToSet(out)
      {
        hide InCallOrder, Needed;
        GenConversionFunction(roots[i], rank);
      }
    }
  }

  lemma AlreadyNeeded(h: Header, rank: Name -> nat, out: seq<Name>, x: Name)
    requires Ranked(h, rank) && InCallOrder(h, rank, out) && x in ToSet(out)
    ensures Needed(h, rank, x) <= ToSet(out)
  {
    var k :| 0 <= k < |out| && out[k] == x;
    assert forall y :: y in out[..k + 1] ==> y in out;
  }

  lemma NeededSplits(h: Header, rank: Name -> nat, x: Name, s: set<Name>, deps: seq<Name>)
    requires Ranked(h, rank) && x in h
    requires forall d :: d in deps <==> d in Deps(h, x)
    requires forall k :: 0 <= k < |deps| ==> Needed(h, rank, deps[k]) <= s
    ensures Needed(h, rank, x) <= s + (if h[x].isUnion then {} else {x})
  {
    forall y | y in Needed(h, rank, x) && y != x ensures y in s {
      var d :| d in Deps(h, x) && y in Closure(h, rank, d);
      var k :| 0 <= k < |deps| && deps[k] == d;
      assert y in Needed(h, rank, deps[k]);
    }
  }

  lemma EmitKeepsOrder(h: Header, rank: Name -> nat, out: seq<Name>, x: Name)
    requires Ranked(h, rank) && InCallOrder(h, rank, out)
    requires x in h && !h[x].isUnion && x !in ToSet(out)
    requires Needed(h, rank, x) <= ToSet(out) + {x}
    ensures InCallOrder(h, rank, out + [x]) && ToSet(out + [x]) == ToSet(out) + {x}
  {
    hide Needed;
    var out' := out + [x];
    assert ToSet(out') == ToSet(out) + {x};
    forall k | 0 <= k < |out'| ensures Needed(h, rank, out'[k]) <= ToSet(out'[..k + 1]) {
      if k < |out| {
        assert out'[..k + 1] == out[..k + 1];
      } else {
        assert out'[..k + 1] == out';
      }
    }
  }

  /**
   * What a conversion function calls: the functions of its nested structs and, since a union is
   * converted in place by the struct around it, those of the structs inside its unions.
   */
  ghost predicate Calls(h: Header, x: Name, y: Name) {
    && y in h && !h[y].isUnion
    && (y in Deps(h, x) || exists u :: u in Deps(h, x) && u in h && h[u].isUnion && y in Deps(h, u))
  }

  /** Every function is emitted before the functions that call it, and only once. */
  lemma CalleesFirst(h: Header, rank: Name -> nat, out: seq<Name>, k: nat, y: Name)
    requires Ranked(h, rank) && InCallOrder(h, rank, out) && k < |out| && Calls(h, out[k], y)
    ensures y in out[..k]
    ensures forall i, j :: 0 <= i < |out| && 0 <= j < |out| && out[i] == y == out[j] ==> i == j
  {
    var x := out[k];
    if y in Deps(h, x) {
      ClosureStep(h, rank, x, y);
      assert y in Closure(h, rank, y);
    } else {
      var u :| u in Deps(h, x) && u in h && h[u].isUnion && y in Deps(h, u);
      ClosureStep(h, rank, x, u);
      ClosureStep(h, rank, u, y);
      assert y in Closure(h, rank, y);
    }
    assert y in Needed(h, rank, x) && rank(y) < rank(x);
    assert out[..k + 1] == out[..k] + [x];
  }
}
