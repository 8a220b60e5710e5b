/** ICE candidates, pair priorities, the check list and the connectivity checks (crates/traversal/src/ice.rs). */
module Ice {
  import opened Bits
  import opened Bytes
  import opened Seqs
  import opened Addresses

  datatype CandidateType = Host | ServerReflexive | Relayed

  datatype Candidate = Candidate(kind: CandidateType, addr: SocketAddr, priority: u32, componentId: byte)

  datatype PairState = Waiting | InProgress | Succeeded | Failed

  datatype CandidatePair = CandidatePair(local: Candidate, remote: Candidate, priority: u64, state: PairState)

  datatype Role = Controlling | Controlled

  // ---- candidate priorities ----

  function TypePreference(t: CandidateType): (r: u32)
    ensures r <= 126
  {
    match t case Host => 126 case ServerReflexive => 100 case Relayed => 0
  }

  /** The sum of section 5.1.2.1 of RFC 8445, before it is squeezed into 32 bits. */
  function PriorityFormula(typePref: u32, localPref: u32, componentId: u32): int {
    Pow2(24) * typePref + Pow2(8) * localPref + (256 - componentId)
  }

  /** `compute_priority` in wrapping 32-bit arithmetic. */
  function ComputePriority(typePref: u32, localPref: u32, componentId: u32): u32 {
    (0x100_0000 * typePref + 0x100 * localPref + (256 - componentId)) % TWO32
  }

  function NewCandidate(kind: CandidateType, addr: SocketAddr, localPref: u32): Candidate {
    Candidate(kind, addr, ComputePriority(TypePreference(kind), localPref, 1), 1)
  }

  lemma FormulaIs(typePref: u32, localPref: u32)
    ensures PriorityFormula(typePref, localPref, 1) == 0x100_0000 * typePref + 0x100 * localPref + 255
  {
    assert Pow2(8) == 256;
    Pow2Adds(8, 8);
    Pow2Adds(16, 8);
  }

  /** With a local preference of at most 65535 the priority is the RFC's and stays below 2^31. */
  lemma PriorityInRange(kind: CandidateType, addr: SocketAddr, localPref: u32)
    requires localPref <= 65535
    ensures var p := NewCandidate(kind, addr, localPref).priority;
      p == PriorityFormula(TypePreference(kind), localPref, 1) && p < 0x8000_0000
  {
    FormulaIs(TypePreference(kind), localPref);
  }

  /** Then priorities order candidates by type first and local preference second. */
  lemma PriorityOrdersCandidates(k1: CandidateType, a1: SocketAddr, l1: u32, k2: CandidateType, a2: SocketAddr, l2: u32)
    requires l1 <= 65535 && l2 <= 65535
    ensures NewCandidate(k1, a1, l1).priority < NewCandidate(k2, a2, l2).priority
      <==> TypePreference(k1) < TypePreference(k2) || (k1 == k2 && l1 < l2)
  {
    PriorityInRange(k1, a1, l1);
    PriorityInRange(k2, a2, l2);
    FormulaIs(TypePreference(k1), l1);
    FormulaIs(TypePreference(k2), l2);
  }

  /** The numbers of section 5.1.2.2 of RFC 8445: 126 for host candidates, 100 for server-reflexive ones, 0 for
      relayed ones. */
  lemma PriorityNumbers(addr: SocketAddr, localPref: u32)
    requires localPref <= 65535
    ensures NewCandidate(Host, addr, localPref).priority == 126 * 0x100_0000 + 0x100 * localPref + 255
    ensures NewCandidate(ServerReflexive, addr, localPref).priority == 100 * 0x100_0000 + 0x100 * localPref + 255
    ensures NewCandidate(Relayed, addr, localPref).priority == 0x100 * localPref + 255
  {
  }

  /** A direct path beats a reflected one and that a relayed one, whatever the local preferences. */
  lemma DirectBeatsRelayed(a: SocketAddr, la: u32, b: SocketAddr, lb: u32, c: SocketAddr, lc: u32)
    requires la <= 65535 && lb <= 65535 && lc <= 65535
    ensures NewCandidate(Host, a, la).priority > NewCandidate(ServerReflexive, b, lb).priority
          > NewCandidate(Relayed, c, lc).priority
  {
    PriorityNumbers(a, la);
    PriorityNumbers(b, lb);
    PriorityNumbers(c, lc);
  }

  // ---- pair priorities ----

  function Min(a: u32, b: u32): u32 { if a <= b then a else b }
  function Max(a: u32, b: u32): u32 { if a <= b then b else a }
  function Tie(g: u32, d: u32): nat { if g > d then 1 else 0 }

  /** Shifts and ors, as the code does it; `g` is the local candidate's priority, `d` the remote one's. */
  function PairPriority(g: u32, d: u32, role: Role): u64 {
    var (controlling, controlled) := if role == Controlling then (g, d) else (d, g);
    OrOfWords(Shl64(Min(controlling, controlled), 32), Shl64(Max(controlling, controlled), 1),
              Tie(controlling, controlled))
  }

  function OrOfWords(a: u64, b: u64, c: u64): u64 {
    Pow2Is64();
    OrFits(a, b, 64);
    OrFits(Or(a, b), c, 64);
    Or(Or(a, b), c)
  }

  /** Section 6.1.2.3 of RFC 8445, with G the controlling and D the controlled agent's candidate. */
  function RfcPairPriority(g: u32, d: u32): nat {
    Pow2(32) * Min(g, d) + 2 * Max(g, d) + (if g > d then 1 else 0)
  }

  lemma {:induction false} OrAtMostSum(a: nat, b: nat)
    ensures Or(a, b) <= a + b
    decreases a + b
  {
    if a != 0 && b != 0 { OrAtMostSum(a / 2, b / 2); }
  }

  /** A shared bit is counted twice by the sum but once by the or. */
  lemma {:induction false} SharedBitLosesSum(a: nat, b: nat, i: nat)
    requires Bit(a, i) && Bit(b, i)
    ensures Or(a, b) < a + b
    decreases i
  {
    BitOfZero(i);
    if i == 0 { OrAtMostSum(a / 2, b / 2); } else { SharedBitLosesSum(a / 2, b / 2, i - 1); }
  }

  lemma {:induction false} TopBit(w: nat, n: nat)
    requires Pow2(n) <= w < Pow2(n + 1)
    ensures Bit(w, n)
  {
    if n > 0 { TopBit(w / 2, n - 1); }
  }

  lemma Pow2Is32()
    ensures Pow2(32) == TWO32 && Pow2(31) == 0x8000_0000 && Pow2(33) == 2 * TWO32
  {
    assert Pow2(8) == 256;
    Pow2Adds(8, 8);
    Pow2Adds(16, 16);
    assert Pow2(32) == 2 * Pow2(31);
  }

  lemma ShiftsAreProducts(lo: u32, hi: u32)
    ensures Shl64(lo, 32) == lo * TWO32 && Shl64(hi, 1) == 2 * hi
  {
    Pow2Is32();
    Shl64IsProduct(lo, 32, lo * TWO32);
    assert Pow2(1) == 2 * Pow2(0) == 2;
    Shl64IsProduct(hi, 1, 2 * hi);
  }

  lemma HighPartsAdd(lo: u32, hi: u32)
    requires hi < 0x8000_0000 || lo % 2 == 0
    ensures Or(lo * TWO32, 2 * hi) == lo * TWO32 + 2 * hi
  {
    Pow2Is32();
    if hi < 0x8000_0000 {
      OrOfDisjoint(lo, 2 * hi, 32);
    } else {
      assert lo / 2 * Pow2(33) == lo * TWO32;
      OrOfDisjoint(lo / 2, 2 * hi, 33);
    }
  }

  lemma TieAdds(x: nat, tie: nat)
    requires x % 2 == 0 && tie <= 1
    ensures Or(x, tie) == x + tie
  {
    assert Pow2(1) == 2 * Pow2(0) == 2;
    OrOfDisjoint(x / 2, tie, 1);
  }

  lemma OrOfEven(a: nat, b: nat)
    requires a % 2 == 0 && b % 2 == 0
    ensures Or(a, b) % 2 == 0
  {
  }

  lemma HighPartsCollide(lo: u32, hi: u32)
    requires hi >= 0x8000_0000 && lo % 2 == 1
    ensures Or(lo * TWO32, 2 * hi) < lo * TWO32 + 2 * hi
  {
    ShiftsAreProducts(lo, hi);
    Pow2Is32();
    BitOfShl64(lo, 32, 32);
    BitOfShl64(hi, 1, 32);
    TopBit(hi, 31);
    SharedBitLosesSum(lo * TWO32, 2 * hi, 32);
  }

  /** The ors give the RFC's sum if and only if the larger priority is below 2^31 or the smaller is even;
      G is the controlling agent's candidate, whichever role computes it. */
  lemma PairPriorityIsSum(local: u32, remote: u32, role: Role)
    ensures var (g, d) := if role == Controlling then (local, remote) else (remote, local);
      PairPriority(local, remote, role) == RfcPairPriority(g, d) <==> Max(g, d) < 0x8000_0000 || Min(g, d) % 2 == 0
  {
    var (g, d) := if role == Controlling then (local, remote) else (remote, local);
    RolesAgree(g, d);
    SumOrLess(g, d);
  }

  lemma SumOrLess(g: u32, d: u32)
    ensures PairPriority(g, d, Controlling) == RfcPairPriority(g, d) <==> Max(g, d) < 0x8000_0000 || Min(g, d) % 2 == 0
  {
    var lo: nat, hi: nat, tie := Min(g, d), Max(g, d), Tie(g, d);
    ShiftsAreProducts(lo, hi);
    Pow2Is32();
    var x := Or(lo * TWO32, 2 * hi);
    EvenParts(lo, hi);
    OrOfEven(lo * TWO32, 2 * hi);
    TieAdds(x, tie);
    if hi < 0x8000_0000 || lo % 2 == 0 { HighPartsAdd(lo, hi); } else { HighPartsCollide(lo, hi); }
  }

  lemma EvenParts(lo: u32, hi: u32)
    ensures lo * TWO32 % 2 == 0 && 2 * hi % 2 == 0
  {
  }

  /** Two agents on opposite sides of a pair give it the same priority. */
  lemma RolesAgree(local: u32, remote: u32)
    ensures PairPriority(local, remote, Controlling) == PairPriority(remote, local, Controlled)
    ensures PairPriority(local, remote, Controlled) == PairPriority(remote, local, Controlling)
  {
  }

  ghost predicate LexLess(g1: u32, d1: u32, g2: u32, d2: u32) {
    || Min(g1, d1) < Min(g2, d2)
    || (Min(g1, d1) == Min(g2, d2) && Max(g1, d1) < Max(g2, d2))
    || (Min(g1, d1) == Min(g2, d2) && Max(g1, d1) == Max(g2, d2) && Tie(g1, d1) < Tie(g2, d2))
  }

  /** Below 2^31 pairs are ordered lexicographically by smaller priority, larger priority and tie bit,
      and the pair priority determines both candidate priorities, for either role. */
  lemma PairPriorityOrders(l1: u32, r1: u32, l2: u32, r2: u32, role: Role)
    requires Max(l1, r1) < 0x8000_0000 && Max(l2, r2) < 0x8000_0000
    ensures var (g1, d1) := if role == Controlling then (l1, r1) else (r1, l1);
      var (g2, d2) := if role == Controlling then (l2, r2) else (r2, l2);
      PairPriority(l1, r1, role) < PairPriority(l2, r2, role) <==> LexLess(g1, d1, g2, d2)
    ensures PairPriority(l1, r1, role) == PairPriority(l2, r2, role) <==> l1 == l2 && r1 == r2
  {
    PairPriorityIsSum(l1, r1, role);
    PairPriorityIsSum(l2, r2, role);
    Pow2Is32();
  }

  // ---- the check list ----

  function NewPair(l: Candidate, r: Candidate, role: Role): CandidatePair {
    CandidatePair(l, r, PairPriority(l.priority, r.priority, role), Waiting)
  }

  predicate SameFamily(l: Candidate, r: Candidate) {
    l.addr.V4? == r.addr.V4?
  }

  function PairsFor(l: Candidate, remotes: seq<Candidate>, role: Role): seq<CandidatePair> {
    if remotes == [] then []
    else PairsFor(l, remotes[..|remotes| - 1], role) +
         (var r := remotes[|remotes| - 1]; if SameFamily(l, r) then [NewPair(l, r, role)] else [])
  }

  lemma PairsForStep(l: Candidate, remotes: seq<Candidate>, j: nat, role: Role, before: seq<CandidatePair>)
    requires j < |remotes|
    ensures before + PairsFor(l, remotes[..j + 1], role) == (before + PairsFor(l, remotes[..j], role)) +
            (if SameFamily(l, remotes[j]) then [NewPair(l, remotes[j], role)] else [])
  {
    assert remotes[..j + 1][..j] == remotes[..j];
  }

  function Product(locals: seq<Candidate>, remotes: seq<Candidate>, role: Role): seq<CandidatePair> {
    if locals == [] then []
    else Product(locals[..|locals| - 1], remotes, role) + PairsFor(locals[|locals| - 1], remotes, role)
  }

  predicate PairedAs(l: Candidate, r: Candidate, role: Role, p: CandidatePair) {
    SameFamily(l, r) && p == NewPair(l, r, role)
  }

  /** How often a pair occurs in the same-family product of two candidate lists. */
  function Occurrences(p: CandidatePair, locals: seq<Candidate>, remotes: seq<Candidate>, role: Role): nat {
    if PairedAs(p.local, p.remote, role, p)
    then multiset(locals)[p.local] * multiset(remotes)[p.remote] else 0
  }

  lemma {:induction false} PairsForCount(l: Candidate, remotes: seq<Candidate>, role: Role, p: CandidatePair)
    ensures multiset(PairsFor(l, remotes, role))[p] == OccurrencesOf(l, p, remotes, role)
  {
    if remotes == [] {
      assert multiset(remotes)[p.remote] == 0;
    } else {
      var before, r := remotes[..|remotes| - 1], remotes[|remotes| - 1];
      PairsForCount(l, before, role, p);
      PairsForLast(l, before, r, role, p);
      OneMoreRemote(l, before, r, role, p);
      LastSplit(remotes);
    }
  }

  function OccurrencesOf(l: Candidate, p: CandidatePair, remotes: seq<Candidate>, role: Role): nat {
    if PairedAs(l, p.remote, role, p) then multiset(remotes)[p.remote] else 0
  }

  lemma PairsForLast(l: Candidate, before: seq<Candidate>, r: Candidate, role: Role, p: CandidatePair)
    ensures multiset(PairsFor(l, before + [r], role))[p]
         == multiset(PairsFor(l, before, role))[p] + if PairedAs(l, r, role, p) then 1 else 0
  {
    assert (before + [r])[..|before|] == before;
    var last := if SameFamily(l, r) then [NewPair(l, r, role)] else [];
    BagAppend(PairsFor(l, before, role), last, p);
  }

  lemma OneMoreRemote(l: Candidate, before: seq<Candidate>, r: Candidate, role: Role, p: CandidatePair)
    ensures OccurrencesOf(l, p, before + [r], role)
         == OccurrencesOf(l, p, before, role) + if PairedAs(l, r, role, p) then 1 else 0
  {
    BagAppend(before, [r], p.remote);
    assert PairedAs(l, r, role, p) <==> r == p.remote && PairedAs(l, p.remote, role, p);
  }

  lemma ProductSnoc(before: seq<Candidate>, l: Candidate, remotes: seq<Candidate>, role: Role)
    ensures Product(before + [l], remotes, role) == Product(before, remotes, role) + PairsFor(l, remotes, role)
  {
    assert (before + [l])[..|before|] == before;
  }

  lemma {:induction false} ProductCount(locals: seq<Candidate>, remotes: seq<Candidate>, role: Role, p: CandidatePair)
    ensures multiset(Product(locals, remotes, role))[p] == Occurrences(p, locals, remotes, role)
  {
    if locals == [] {
      assert multiset(locals)[p.local] == 0;
    } else {
      var before, l := locals[..|locals| - 1], locals[|locals| - 1];
      ProductCount(before, remotes, role, p);
      CountStep(before, l, remotes, role, p);
      LastSplit(locals);
    }
  }

  lemma CountStep(before: seq<Candidate>, l: Candidate, remotes: seq<Candidate>, role: Role,
                                     p: CandidatePair)
    ensures multiset(Product(before + [l], remotes, role))[p] - multiset(Product(before, remotes, role))[p]
         == Occurrences(p, before + [l], remotes, role) - Occurrences(p, before, remotes, role)
  {
    ProductSnoc(before, l, remotes, role);
    OneMoreLocal(before, l, remotes, role, p);
    BagAppend(Product(before, remotes, role), PairsFor(l, remotes, role), p);
  }

  lemma BagAppend<T>(a: seq<T>, b: seq<T>, x: T)
    ensures multiset(a + b)[x] == multiset(a)[x] + multiset(b)[x]
  {
  }

  lemma OneMoreLocal(before: seq<Candidate>, l: Candidate, remotes: seq<Candidate>, role: Role,
                                        p: CandidatePair)
    ensures Occurrences(p, before + [l], remotes, role)
         == Occurrences(p, before, remotes, role) + multiset(PairsFor(l, remotes, role))[p]
  {
    PairsForCount(l, remotes, role, p);
    OccurrencesOfLocal(l, p, remotes, role);
    BagAppend(before, [l], p.local);
    OneMoreTimes(multiset(before)[p.local], multiset(remotes)[p.remote], l == p.local);
  }

  lemma OccurrencesOfLocal(l: Candidate, p: CandidatePair, remotes: seq<Candidate>, role: Role)
    ensures OccurrencesOf(l, p, remotes, role)
         == if l == p.local && PairedAs(p.local, p.remote, role, p) then multiset(remotes)[p.remote] else 0
  {
  }

  lemma OneMoreTimes(n: nat, k: nat, more: bool)
    ensures (n + if more then 1 else 0) * k == n * k + if more then k else 0
  {
  }

  // ---- the stable sort, highest priority first ----

  /** `p` goes behind everything of at least its priority. */
  function Inserted(sorted: seq<CandidatePair>, p: CandidatePair): seq<CandidatePair> {
    if sorted == [] || sorted[0].priority < p.priority then [p] + sorted else [sorted[0]] + Inserted(sorted[1..], p)
  }

  /** What `sort_by` returns: the list sorted in descending order, equal priorities in their original order. */
  function Sorted(ps: seq<CandidatePair>): seq<CandidatePair> {
    if ps == [] then [] else Inserted(Sorted(ps[..|ps| - 1]), ps[|ps| - 1])
  }

  ghost predicate Descending(ps: seq<CandidatePair>) {
    forall i, j | 0 <= i < j < |ps| :: ps[i].priority >= ps[j].priority
  }

  function OfPriority(ps: seq<CandidatePair>, priority: u64): seq<CandidatePair> {
    if ps == [] then [] else (if ps[0].priority == priority then [ps[0]] else []) + OfPriority(ps[1..], priority)
  }

  lemma {:induction false} InsertedPermutes(sorted: seq<CandidatePair>, p: CandidatePair)
    ensures multiset(Inserted(sorted, p)) == multiset(sorted) + multiset{p}
  {
    if sorted != [] && sorted[0].priority >= p.priority {
      InsertedPermutes(sorted[1..], p);
      assert sorted == [sorted[0]] + sorted[1..];
    }
  }

  /** Everything behind the head is no larger: what it takes to keep a list descending. */
  lemma DescendingCons(head: CandidatePair, tail: seq<CandidatePair>)
    ensures Descending([head] + tail) <==> Descending(tail) && forall x | x in tail :: head.priority >= x.priority
  {
    var all := [head] + tail;
    if Descending(all) {
      forall i, j | 0 <= i < j < |tail| ensures tail[i].priority >= tail[j].priority {
        assert all[i + 1].priority >= all[j + 1].priority;
      }
      forall x | x in tail ensures head.priority >= x.priority {
        var k :| 0 <= k < |tail| && tail[k] == x;
        assert all[0].priority >= all[k + 1].priority;
      }
    }
  }

  lemma {:induction false} InsertedDescends(sorted: seq<CandidatePair>, p: CandidatePair)
    requires Descending(sorted)
    ensures Descending(Inserted(sorted, p))
  {
    if sorted == [] {
    } else {
      var head, tail := sorted[0], sorted[1..];
      assert sorted == [head] + tail;
      DescendingCons(head, tail);
      if head.priority < p.priority {
        forall x | x in sorted ensures p.priority >= x.priority {}
        DescendingCons(p, sorted);
      } else {
        InsertedDescends(tail, p);
        InsertedPermutes(tail, p);
        forall x | x in Inserted(tail, p) ensures head.priority >= x.priority {
          assert x in multiset(tail) + multiset{p};
        }
        DescendingCons(head, Inserted(tail, p));
      }
    }
  }

  lemma {:induction false} InsertedStable(sorted: seq<CandidatePair>, p: CandidatePair, priority: u64)
    requires Descending(sorted)
    ensures OfPriority(Inserted(sorted, p), priority) ==
            OfPriority(sorted, priority) + (if p.priority == priority then [p] else [])
  {
    if sorted == [] {
      assert [p][1..] == [];
    } else if sorted[0].priority < p.priority {
      assert ([p] + sorted)[1..] == sorted;
      NoneOfPriority(sorted, p.priority);
    } else {
      var head, tail := sorted[0], sorted[1..];
      assert sorted == [head] + tail;
      DescendingCons(head, tail);
      InsertedStable(tail, p, priority);
      assert ([head] + Inserted(tail, p))[1..] == Inserted(tail, p);
      Assoc(if head.priority == priority then [head] else [], OfPriority(tail, priority),
            if p.priority == priority then [p] else []);
    }
  }

  lemma {:induction false} NoneOfPriority(sorted: seq<CandidatePair>, priority: u64)
    requires Descending(sorted) && (sorted != [] ==> sorted[0].priority < priority)
    ensures OfPriority(sorted, priority) == []
  {
    if sorted != [] {
      assert forall i | 0 <= i < |sorted[1..]| :: sorted[1..][i] == sorted[i + 1];
      NoneOfPriority(sorted[1..], priority);
    }
  }

  lemma {:induction false} OfPrioritySnoc(ps: seq<CandidatePair>, p: CandidatePair, priority: u64)
    ensures OfPriority(ps + [p], priority) == OfPriority(ps, priority) + (if p.priority == priority then [p] else [])
  {
    if ps == [] {
      assert ([] + [p])[1..] == [];
    } else {
      OfPrioritySnoc(ps[1..], p, priority);
      assert (ps + [p])[1..] == ps[1..] + [p];
    }
  }

  /** Sorting permutes, orders downwards, and keeps pairs of equal priority in order. */
  lemma {:induction false} SortedIs(ps: seq<CandidatePair>, priority: u64)
    ensures Descending(Sorted(ps)) && multiset(Sorted(ps)) == multiset(ps)
    ensures OfPriority(Sorted(ps), priority) == OfPriority(ps, priority)
  {
    if ps != [] {
      var before, x := ps[..|ps| - 1], ps[|ps| - 1];
      SortedIs(before, priority);
      InsertedPermutes(Sorted(before), x);
      InsertedDescends(Sorted(before), x);
      InsertedStable(Sorted(before), x, priority);
      OfPrioritySnoc(before, x, priority);
      SnocMultiset(ps);
    }
  }

  lemma SnocMultiset(ps: seq<CandidatePair>)
    requires ps != []
    ensures ps == ps[..|ps| - 1] + [ps[|ps| - 1]]
    ensures multiset(ps) == multiset(ps[..|ps| - 1]) + multiset{ps[|ps| - 1]}
  {
    LastSplit(ps);
  }

  /** The check list is a descending arrangement of exactly the same-family product. */
  lemma CheckListIs(locals: seq<Candidate>, remotes: seq<Candidate>, role: Role, p: CandidatePair)
    ensures var list := Sorted(Product(locals, remotes, role));
      Descending(list) && multiset(list)[p] == Occurrences(p, locals, remotes, role)
  {
    SortedIs(Product(locals, remotes, role), 0);
    ProductCount(locals, remotes, role, p);
  }

  // ---- the two agents of a session ----

  function Flip(role: Role): Role { if role == Controlling then Controlled else Controlling }

  function Mirror(p: CandidatePair): CandidatePair {
    CandidatePair(p.remote, p.local, p.priority, p.state)
  }

  lemma MirrorOccurs(p: CandidatePair, locals: seq<Candidate>, remotes: seq<Candidate>, role: Role)
    ensures Occurrences(Mirror(p), remotes, locals, Flip(role)) == Occurrences(p, locals, remotes, role)
  {
    RolesAgree(p.local.priority, p.remote.priority);
    RolesAgree(p.remote.priority, p.local.priority);
  }

  function Mirrors(ps: seq<CandidatePair>): (r: seq<CandidatePair>)
    ensures |r| == |ps|
    ensures forall i | 0 <= i < |ps| :: r[i] == Mirror(ps[i])
  {
    seq(|ps|, i requires 0 <= i < |ps| => Mirror(ps[i]))
  }

  lemma {:induction false} MirrorsCount(ps: seq<CandidatePair>, p: CandidatePair)
    ensures multiset(Mirrors(ps))[Mirror(p)] == multiset(ps)[p]
  {
    if ps != [] {
      var i := |ps| - 1;
      MirrorsCount(ps[..i], p);
      assert ps == ps[..i] + [ps[i]];
      assert Mirrors(ps) == Mirrors(ps[..i]) + [Mirror(ps[i])];
      assert Mirror(ps[i]) == Mirror(p) <==> ps[i] == p;
    }
  }

  ghost predicate DistinctPriorities(ps: seq<CandidatePair>) {
    forall i, j | 0 <= i < j < |ps| :: ps[i].priority != ps[j].priority
  }

  lemma FirstIsLargest(a: seq<CandidatePair>, b: seq<CandidatePair>)
    requires multiset(a) == multiset(b) && a != [] && Descending(a) && Descending(b)
    ensures b != [] && a[0].priority == b[0].priority
  {
    assert a[0] in multiset(b) && |multiset(a)| == |a| && |multiset(b)| == |b|;
    var k :| 0 <= k < |b| && b[k] == a[0];
    assert b[0] in multiset(a);
    var j :| 0 <= j < |a| && a[j] == b[0];
  }

  lemma SamePriorityFirst(a: seq<CandidatePair>, x: CandidatePair)
    requires a != [] && DistinctPriorities(a) && x in a && x.priority == a[0].priority
    ensures x == a[0]
  {
    var j :| 0 <= j < |a| && a[j] == x;
  }

  lemma TailMultiset(a: seq<CandidatePair>)
    requires a != []
    ensures multiset(a[1..]) == multiset(a) - multiset{a[0]}
  {
    HeadSplit(a);
  }

  /** A descending arrangement without ties is unique. */
  lemma {:induction false} DescendingIsUnique(a: seq<CandidatePair>, b: seq<CandidatePair>)
    requires multiset(a) == multiset(b) && Descending(a) && Descending(b) && DistinctPriorities(a)
    ensures a == b
    decreases |a|
  {
    if a == [] {
      assert |multiset(b)| == |b| == 0;
    } else {
      FirstIsLargest(a, b);
      assert b[0] in multiset(a);
      SamePriorityFirst(a, b[0]);
      TailMultiset(a);
      TailMultiset(b);
      DescendingIsUnique(a[1..], b[1..]);
      HeadSplit(a);
      HeadSplit(b);
    }
  }

  lemma MirrorsDescend(ps: seq<CandidatePair>)
    ensures Descending(ps) ==> Descending(Mirrors(ps))
    ensures DistinctPriorities(ps) ==> DistinctPriorities(Mirrors(ps))
  {
  }

  /** Two agents that know the same candidates check the same pairs, and in the same order whenever no
      two pairs share a priority. */
  lemma AgentsCheckAlike(locals: seq<Candidate>, remotes: seq<Candidate>, role: Role)
    ensures var mine := Sorted(Product(locals, remotes, role));
      var theirs := Sorted(Product(remotes, locals, Flip(role)));
      && multiset(Mirrors(mine)) == multiset(theirs)
      && (DistinctPriorities(mine) ==> Mirrors(mine) == theirs)
  {
    var mine := Sorted(Product(locals, remotes, role));
    var theirs := Sorted(Product(remotes, locals, Flip(role)));
    forall q: CandidatePair ensures multiset(Mirrors(mine))[q] == multiset(theirs)[q] {
      var p := Mirror(q);
      assert Mirror(p) == q;
      MirrorsCount(mine, p);
      CheckListIs(locals, remotes, role, p);
      CheckListIs(remotes, locals, Flip(role), q);
      MirrorOccurs(p, locals, remotes, role);
    }
    SortedIs(Product(locals, remotes, role), 0);
    SortedIs(Product(remotes, locals, Flip(role)), 0);
    MirrorsDescend(mine);
    if DistinctPriorities(mine) { DescendingIsUnique(Mirrors(mine), theirs); }
  }

  // ---- connectivity checks ----

  datatype Outcome = Outcome(list: seq<CandidatePair>, selected: Option<CandidatePair>)

  /** One pass from index i; `answers(k)` is whether the peer of pair k replies. */
  function Checked(list: seq<CandidatePair>, answers: nat -> bool, i: nat): Outcome
    decreases |list| - i
  {
    if i >= |list| then Outcome(list, None)
    else if list[i].state != Waiting then Checked(list, answers, i + 1)
    else if answers(i) then
      var p := list[i].(state := Succeeded);
      Outcome(list[i := p], Some(p))
    else Checked(list[i := list[i].(state := Failed)], answers, i + 1)
  }

  ghost predicate Replies(list: seq<CandidatePair>, answers: nat -> bool, k: nat)
    requires k < |list|
  {
    list[k].state == Waiting && answers(k)
  }

  /** Entry k after a pass that stopped at `stop`. */
  function After(list: seq<CandidatePair>, k: nat, stop: nat): CandidatePair
    requires k < |list|
  {
    if list[k].state != Waiting || k > stop then list[k]
    else list[k].(state := if k == stop then Succeeded else Failed)
  }

  /** The pass stops at the first waiting pair that replies, which succeeds; waiting pairs before it have
      failed and nothing else has changed. Without such a pair every waiting pair fails. */
  ghost predicate StopsAt(list: seq<CandidatePair>, answers: nat -> bool, from: nat, o: Outcome, stop: nat) {
    && from <= stop <= |list| && |o.list| == |list|
    && (forall k: nat | from <= k < stop :: !Replies(list, answers, k))
    && (stop < |list| ==> Replies(list, answers, stop) && o.selected == Some(o.list[stop]))
    && (stop == |list| ==> o.selected == None)
    && forall k: nat | k < |list| :: o.list[k] == if k < from then list[k] else After(list, k, stop)
  }

  lemma {:induction false} CheckedStops(list: seq<CandidatePair>, answers: nat -> bool, i: nat) returns (stop: nat)
    requires i <= |list|
    ensures StopsAt(list, answers, i, Checked(list, answers, i), stop)
    decreases |list| - i
  {
    if i == |list| {
      stop := i;
    } else if list[i].state != Waiting {
      stop := CheckedStops(list, answers, i + 1);
    } else if answers(i) {
      stop := i;
    } else {
      var list' := list[i := list[i].(state := Failed)];
      stop := CheckedStops(list', answers, i + 1);
      forall k: nat | i <= k < stop ensures !Replies(list, answers, k) {
        if k > i { assert !Replies(list', answers, k); }
      }
    }
  }

  /** On a descending list the selected pair has the highest priority of all waiting pairs that reply. */
  lemma SelectedIsBest(list: seq<CandidatePair>, answers: nat -> bool, k: nat)
    requires Descending(list) && k < |list| && Replies(list, answers, k)
    ensures var o := Checked(list, answers, 0);
      o.selected.Some? && o.selected.value.priority >= list[k].priority && o.selected.value.state == Succeeded
  {
    var stop := CheckedStops(list, answers, 0);
  }

  /** A check list just formed consists of waiting pairs. */
  lemma FormedWaits(locals: seq<Candidate>, remotes: seq<Candidate>, role: Role, k: nat)
    requires k < |Sorted(Product(locals, remotes, role))|
    ensures Sorted(Product(locals, remotes, role))[k].state == Waiting
  {
    var list := Sorted(Product(locals, remotes, role));
    CheckListIs(locals, remotes, role, list[k]);
    assert list[k] in multiset(list);
  }

  /** A pair is on the list if and only if it joins a known local and a known remote candidate of one address family,
      under their pair priority, and waits. */
  lemma FormedPairs(locals: seq<Candidate>, remotes: seq<Candidate>, role: Role, p: CandidatePair)
    ensures p in Sorted(Product(locals, remotes, role)) <==>
            && p.local in locals && p.remote in remotes && (p.local.addr.V4? <==> p.remote.addr.V4?)
            && p.priority == PairPriority(p.local.priority, p.remote.priority, role) && p.state == Waiting
  {
    var list := Sorted(Product(locals, remotes, role));
    CheckListIs(locals, remotes, role, p);
    assert p in list <==> p in multiset(list);
    assert p.local in locals <==> p.local in multiset(locals);
    assert p.remote in remotes <==> p.remote in multiset(remotes);
    PositiveProduct(multiset(locals)[p.local], multiset(remotes)[p.remote]);
  }

  lemma PositiveProduct(a: nat, b: nat)
    ensures a * b > 0 <==> a > 0 && b > 0
  {
  }

  /** Forming the list and checking it selects a pair that answers, the best of all that answer; none if none does. */
  lemma FormedSelectsBest(locals: seq<Candidate>, remotes: seq<Candidate>, role: Role, answers: nat -> bool)
    ensures var list := Sorted(Product(locals, remotes, role));
      var o := Checked(list, answers, 0);
      && (o.selected.None? <==> forall k: nat | k < |list| :: !answers(k))
      && (o.selected.Some? ==>
            exists k: nat :: k < |list| && answers(k) && o.selected == Some(list[k].(state := Succeeded)))
      && forall k: nat | k < |list| && answers(k) :: o.selected.Some? && o.selected.value.priority >= list[k].priority
  {
    var list := Sorted(Product(locals, remotes, role));
    var stop := CheckedStops(list, answers, 0);
    var o := Checked(list, answers, 0);
    forall k: nat | k < |list| ensures Replies(list, answers, k) <==> answers(k) {
      FormedWaits(locals, remotes, role, k);
    }
    CheckListDescends(locals, remotes, role);
    forall k: nat | k < |list| && answers(k)
      ensures o.selected.Some? && o.selected.value.priority >= list[k].priority
    {
      SelectedIsBest(list, answers, k);
    }
    if stop < |list| { assert answers(stop); }
  }

  lemma CheckListDescends(locals: seq<Candidate>, remotes: seq<Candidate>, role: Role)
    ensures Descending(Sorted(Product(locals, remotes, role)))
  {
    SortedIs(Product(locals, remotes, role), 0);
  }

  /** After a pass in which nobody replied no pair is waiting: another pass checks nothing, whoever would reply. */
  lemma FailedPassIsFinal(list: seq<CandidatePair>, answers: nat -> bool, later: nat -> bool)
    requires Checked(list, answers, 0).selected == None
    ensures var list' := Checked(list, answers, 0).list;
      Checked(list', later, 0) == Outcome(list', None)
  {
    var list' := Checked(list, answers, 0).list;
    var stop := CheckedStops(list, answers, 0);
    var stop' := CheckedStops(list', later, 0);
    forall k: nat | k < |list'| ensures !Replies(list', later, k) && After(list', k, stop') == list'[k] {
      assert list'[k] == After(list, k, stop);
    }
    assert Checked(list', later, 0).list == list';
  }

  // ---- the agent ----

  class IceAgent {
    const role: Role
    var localCands: seq<Candidate>
    var remoteCands: seq<Candidate>
    var checkList: seq<CandidatePair>

    constructor (role: Role)
      ensures this.role == role && localCands == [] && remoteCands == [] && checkList == []
    {
      this.role, localCands, remoteCands, checkList := role, [], [], [];
    }

    method AddLocalCandidate(c: Candidate)
      modifies this`localCands
      ensures localCands == old(localCands) + [c]
    {
      localCands := localCands + [c];
    }

    method SetRemoteCandidates(candidates: seq<Candidate>)
      modifies this`remoteCands
      ensures remoteCands == candidates
    {
      remoteCands := candidates;
    }

    method FormCheckList()
      modifies this`checkList
      ensures checkList == Sorted(Product(localCands, remoteCands, role))
      ensures Descending(checkList)
    {
      checkList := [];
      for i := 0 to |localCands|
        invariant checkList == Product(localCands[..i], remoteCands, role)
      {
        var l := localCands[i];
        ghost var before := checkList;
        for j := 0 to |remoteCands|
          invariant checkList == before + PairsFor(l, remoteCands[..j], role)
        {
          var r := remoteCands[j];
          PairsForStep(l, remoteCands, j, role, before);
          if l.addr.V4? != r.addr.V4? { continue; }
          checkList := checkList + [NewPair(l, r, role)];
        }
        assert remoteCands[..|remoteCands|] == remoteCands;
        assert localCands[..i + 1][..i] == localCands[..i];
      }
      assert localCands[..|localCands|] == localCands;
      SortedIs(checkList, 0);
      checkList := Sorted(checkList);
    }

    method RunChecks(answers: nat -> bool) returns (selected: Option<CandidatePair>)
      modifies this`checkList
      ensures Outcome(checkList, selected) == Checked(old(checkList), answers, 0)
    {
      var i := 0;
      while i < |checkList|
        invariant i <= |checkList|
        invariant Checked(checkList, answers, i) == Checked(old(checkList), answers, 0)
        decreases |checkList| - i
      {
        var pair := checkList[i];
        ghost var before := checkList;
        if pair.state == Waiting {
          checkList := checkList[i := pair.(state := InProgress)];
          if answers(i) {
            checkList := checkList[i := pair.(state := Succeeded)];
            assert checkList == before[i := pair.(state := Succeeded)];
            return Some(checkList[i]);
          }
          checkList := checkList[i := pair.(state := Failed)];
          assert checkList == before[i := pair.(state := Failed)];
        }
        i := i + 1;
      }
      selected := None;
    }

    method SelectedPair() returns (r: Option<CandidatePair>)
      ensures match r
              case None => forall k | 0 <= k < |checkList| :: checkList[k].state != Succeeded
              case Some(p) => exists i | 0 <= i < |checkList| ::
                checkList[i] == p && p.state == Succeeded && forall k | 0 <= k < i :: checkList[k].state != Succeeded
    {
      for i := 0 to |checkList|
        invariant forall k | 0 <= k < i :: checkList[k].state != Succeeded
      {
        if checkList[i].state == Succeeded { return Some(checkList[i]); }
      }
      r := None;
    }
  }
}
