/** The physics world container and its update schedule
    (src/pgWorldObject.c). The numeric kernels of bodies, shapes, contacts and
    joints live in files that are not part of this model; each call to one is
    recorded, in order, in the world's trace. The broad-phase overlap test and
    the narrow phase are inputs (`Narrow`), indexed by the detection pass
    because bodies move between passes. */
module Physics {
  import opened Options
  import opened Seqs

  /** MAX_ITERATION (src/pgWorldObject.c:33). */
  const MaxIteration: Iterations := 5

  /** A number of solver iterations; MAX_ITERATION is positive. */
  type Iterations = m: nat | m > 0 witness 1

  /** A body; only whether it is static matters to the world. */
  class Body {
    const isStatic: bool

    constructor (isStatic: bool)
      ensures this.isStatic == isStatic
    {
      this.isStatic := isStatic;
    }
  }

  /** A joint; only whether it has a `SolveConstraints` function matters. */
  class Joint {
    const hasSolver: bool

    constructor (hasSolver: bool)
      ensures this.hasSolver == hasSolver
    {
      this.hasSolver := hasSolver;
    }
  }

  /** A contact the narrow phase created between two bodies. */
  datatype Contact = Contact(refBody: Body, incBody: Body, serial: nat)

  /** Per-body kernels: `PyBodyObject_FreeUpdateVel`, `PyShapeObject_UpdateAABB`,
      the bias reset, `PyBodyObject_CorrectPos`, `PyBodyObject_FreeUpdatePos`. */
  datatype BodyKernel = FreeUpdateVel | UpdateAabb | ClearBias | CorrectPos | FreeUpdatePos

  /** Per-contact kernels: the impulse reset, `Collision_ApplyContact` and
      `JointObject_SolveConstraints` on the contact. */
  datatype ContactKernel = ClearImpulse | ApplyContact | SolveContact

  /** One recorded kernel call. `Collide` is `PyShapeObject_Collision`. */
  datatype Call =
    | BodyCall(kernel: BodyKernel, body: Body)
    | Collide(refBody: Body, incBody: Body)
    | ContactCall(ckernel: ContactKernel, contact: Contact)
    | SolveJoint(joint: Joint)

  /** The broad-phase test `AABB_IsOverlap` and the contacts the narrow phase
      appends, for each detection pass and pair of bodies. */
  datatype Narrow = Narrow(overlap: (nat, Body, Body) -> bool, collide: (nat, Body, Body) -> seq<Contact>)

  // ---------------------------------------------------------------------
  // Pair enumeration

  /** Pairs (i, i+1), ..., (i, j-1): the inner loop of the collision test run
      up to `j`. */
  function RowUpTo(i: int, j: int): seq<(int, int)>
    requires i < j
    decreases j - i
  {
    if j == i + 1 then [] else RowUpTo(i, j - 1) + [(i, j - 1)]
  }

  /** The pairs visited by the first `i` rounds of the outer loop. */
  function RowsBefore(i: nat, n: int): seq<(int, int)>
    requires i <= n
  {
    if i == 0 then [] else RowsBefore(i - 1, n) + RowUpTo(i - 1, n)
  }

  /** Every pair the collision test of a world with `n` bodies visits, in
      visiting order (src/pgWorldObject.c:217-232). */
  function Pairs(n: nat): seq<(int, int)>
  {
    RowsBefore(if n > 0 then n - 1 else 0, n)
  }

  predicate LexLess(p: (int, int), q: (int, int))
  {
    p.0 < q.0 || (p.0 == q.0 && p.1 < q.1)
  }

  predicate StrictlySorted(ps: seq<(int, int)>)
  {
    forall a, b :: 0 <= a < b < |ps| ==> LexLess(ps[a], ps[b])
  }

  lemma {:induction false} RowUpToSpec(i: int, j: int)
    requires i < j
    ensures forall p :: p in RowUpTo(i, j) <==> p.0 == i && i < p.1 < j
    ensures StrictlySorted(RowUpTo(i, j))
    decreases j - i
  {
    if j > i + 1 {
      RowUpToSpec(i, j - 1);
    }
  }

  lemma {:induction false} RowsBeforeSpec(i: nat, n: int)
    requires i <= n
    ensures forall p :: p in RowsBefore(i, n) <==> 0 <= p.0 < i && p.0 < p.1 < n
    ensures StrictlySorted(RowsBefore(i, n))
  {
    if i > 0 {
      RowsBeforeSpec(i - 1, n);
      RowUpToSpec(i - 1, n);
      var a, b := RowsBefore(i - 1, n), RowUpTo(i - 1, n);
      forall x, y | 0 <= x < y < |a + b|
        ensures LexLess((a + b)[x], (a + b)[y])
      {
        if y >= |a| && x < |a| {
          assert a[x] in a && b[y - |a|] in b;
        }
      }
    }
  }

  /** The collision test visits each pair (i, j) with i < j of the body list
      exactly once, in lexicographic order. */
  lemma PairsExactlyOnce(n: nat)
    ensures forall p :: p in Pairs(n) <==> 0 <= p.0 < p.1 < n
    ensures StrictlySorted(Pairs(n))
    ensures forall a, b :: 0 <= a < |Pairs(n)| && 0 <= b < |Pairs(n)| && Pairs(n)[a] == Pairs(n)[b] ==> a == b
  {
    RowsBeforeSpec(if n > 0 then n - 1 else 0, n);
  }

  /** A pair reaches the narrow phase unless both bodies are static, and then
      only when their boxes overlap (src/pgWorldObject.c:224-231). */
  predicate Candidate(bodies: seq<Body>, pass: nat, nw: Narrow, p: (int, int))
  {
    && 0 <= p.0 < |bodies| && 0 <= p.1 < |bodies|
    && !(bodies[p.0].isStatic && bodies[p.1].isStatic)
    && nw.overlap(pass, bodies[p.0], bodies[p.1])
  }

  /** The pairs of `ps` that reach the narrow phase, in order. */
  function Candidates(bodies: seq<Body>, pass: nat, nw: Narrow, ps: seq<(int, int)>): seq<(int, int)>
  {
    if ps == [] then []
    else
      var last := ps[|ps| - 1];
      Candidates(bodies, pass, nw, ps[..|ps| - 1]) + (if Candidate(bodies, pass, nw, last) then [last] else [])
  }

  lemma {:induction false} CandidatesSpec(bodies: seq<Body>, pass: nat, nw: Narrow, ps: seq<(int, int)>)
    requires StrictlySorted(ps)
    ensures forall p :: p in Candidates(bodies, pass, nw, ps) <==> p in ps && Candidate(bodies, pass, nw, p)
    ensures StrictlySorted(Candidates(bodies, pass, nw, ps))
  {
    if ps != [] {
      var init := ps[..|ps| - 1];
      assert StrictlySorted(init);
      CandidatesSpec(bodies, pass, nw, init);
      var c := Candidates(bodies, pass, nw, init);
      var last := ps[|ps| - 1];
      forall p | p in c
        ensures LexLess(p, last)
      {
        var k :| 0 <= k < |init| && init[k] == p;
      }
      assert forall p :: p in ps <==> p in init || p == last;
    }
  }

  /** The narrow phase reaches exactly the pairs i < j of the body list that
      are not both static and whose boxes overlap, each once and in list
      order. */
  lemma NarrowPhasePairs(bodies: seq<Body>, pass: nat, nw: Narrow)
    ensures var cs := Candidates(bodies, pass, nw, Pairs(|bodies|));
            && StrictlySorted(cs)
            && forall p :: p in cs <==>
                 0 <= p.0 < p.1 < |bodies| && !(bodies[p.0].isStatic && bodies[p.1].isStatic)
                 && nw.overlap(pass, bodies[p.0], bodies[p.1])
  {
    PairsExactlyOnce(|bodies|);
    CandidatesSpec(bodies, pass, nw, Pairs(|bodies|));
  }

  /** The narrow-phase calls the collision test makes for the pairs `ps`. */
  function PairCalls(bodies: seq<Body>, pass: nat, nw: Narrow, ps: seq<(int, int)>): seq<Call>
  {
    if ps == [] then []
    else
      var p := ps[|ps| - 1];
      PairCalls(bodies, pass, nw, ps[..|ps| - 1])
      + (if Candidate(bodies, pass, nw, p) then [Collide(bodies[p.0], bodies[p.1])] else [])
  }

  /** The contacts the narrow phase appends for the pairs `ps`. */
  function PairContacts(bodies: seq<Body>, pass: nat, nw: Narrow, ps: seq<(int, int)>): seq<Contact>
  {
    if ps == [] then []
    else
      var p := ps[|ps| - 1];
      PairContacts(bodies, pass, nw, ps[..|ps| - 1])
      + (if Candidate(bodies, pass, nw, p) then nw.collide(pass, bodies[p.0], bodies[p.1]) else [])
  }

  /** One more pair extends both traces by that pair's share. */
  lemma PairStep(bodies: seq<Body>, pass: nat, nw: Narrow, ps: seq<(int, int)>, p: (int, int))
    ensures PairCalls(bodies, pass, nw, ps + [p]) == PairCalls(bodies, pass, nw, ps)
      + (if Candidate(bodies, pass, nw, p) then [Collide(bodies[p.0], bodies[p.1])] else [])
    ensures PairContacts(bodies, pass, nw, ps + [p]) == PairContacts(bodies, pass, nw, ps)
      + (if Candidate(bodies, pass, nw, p) then nw.collide(pass, bodies[p.0], bodies[p.1]) else [])
  {
    assert (ps + [p])[..|ps|] == ps;
  }

  /** Both traces of `ps + qs` are those of `ps` followed by those of `qs`. */
  lemma {:induction false} PairsAppend(bodies: seq<Body>, pass: nat, nw: Narrow, ps: seq<(int, int)>, qs: seq<(int, int)>)
    ensures PairCalls(bodies, pass, nw, ps + qs) == PairCalls(bodies, pass, nw, ps) + PairCalls(bodies, pass, nw, qs)
    ensures PairContacts(bodies, pass, nw, ps + qs) == PairContacts(bodies, pass, nw, ps) + PairContacts(bodies, pass, nw, qs)
  {
    if qs == [] {
      assert ps + qs == ps;
    } else {
      var init, last := qs[..|qs| - 1], qs[|qs| - 1];
      assert ps + qs == (ps + init) + [last];
      assert qs == init + [last];
      PairsAppend(bodies, pass, nw, ps, init);
      PairStep(bodies, pass, nw, ps + init, last);
      PairStep(bodies, pass, nw, init, last);
    }
  }

  /** The pair loop of `_BodyCollisionDetection` (src/pgWorldObject.c:217-232):
      the narrow-phase calls and the contacts of every pair i < j. */
  method ScanPairs(bodies: seq<Body>, pass: nat, nw: Narrow) returns (cs: seq<Call>, ct: seq<Contact>)
    ensures cs == PairCalls(bodies, pass, nw, Pairs(|bodies|))
    ensures ct == PairContacts(bodies, pass, nw, Pairs(|bodies|))
  {
    var n := |bodies|;
    cs, ct := [], [];
    var i := 0;
    while i < n - 1
      invariant 0 <= i <= (if n > 0 then n - 1 else 0)
      invariant cs == PairCalls(bodies, pass, nw, RowsBefore(i, n))
      invariant ct == PairContacts(bodies, pass, nw, RowsBefore(i, n))
    {
      var rowCalls, rowContacts := ScanRow(bodies, i, pass, nw);
      PairsAppend(bodies, pass, nw, RowsBefore(i, n), RowUpTo(i, n));
      cs, ct := cs + rowCalls, ct + rowContacts;
      i := i + 1;
    }
    assert RowsBefore(i, n) == Pairs(n);
  }

  /** Row `i` of the pair loop (src/pgWorldObject.c:217-232): the pairs (i, j)
      for i < j < |bodies|, with the narrow-phase calls and the contacts they
      produce. */
  method ScanRow(bodies: seq<Body>, i: nat, pass: nat, nw: Narrow) returns (cs: seq<Call>, ct: seq<Contact>)
    requires i + 1 < |bodies|
    ensures cs == PairCalls(bodies, pass, nw, RowUpTo(i, |bodies|))
    ensures ct == PairContacts(bodies, pass, nw, RowUpTo(i, |bodies|))
  {
    cs, ct := [], [];
    var j := i + 1;
    ghost var row: seq<(int, int)> := [];
    while j < |bodies|
      invariant i + 1 <= j <= |bodies|
      invariant row == RowUpTo(i, j)
      invariant cs == PairCalls(bodies, pass, nw, row)
      invariant ct == PairContacts(bodies, pass, nw, row)
    {
      PairStep(bodies, pass, nw, row, (i, j));
      var refBody, incBody := bodies[i], bodies[j];
      if !(refBody.isStatic && incBody.isStatic) && nw.overlap(pass, refBody, incBody) {
        assert Candidate(bodies, pass, nw, (i, j));
        cs := cs + [Collide(refBody, incBody)];
        ct := ct + nw.collide(pass, refBody, incBody);
      } else {
        assert !Candidate(bodies, pass, nw, (i, j));
      }
      row := row + [(i, j)];
      j := j + 1;
    }
  }

  /** The narrow phase is called once per candidate pair, in candidate order,
      on the bodies of that pair. */
  lemma {:induction false} PairCallsFollowCandidates(bodies: seq<Body>, pass: nat, nw: Narrow, ps: seq<(int, int)>)
    ensures var cs := Candidates(bodies, pass, nw, ps);
            && |PairCalls(bodies, pass, nw, ps)| == |cs|
            && forall k :: 0 <= k < |cs| ==>
                 Candidate(bodies, pass, nw, cs[k])
                 && PairCalls(bodies, pass, nw, ps)[k] == Collide(bodies[cs[k].0], bodies[cs[k].1])
  {
    if ps != [] {
      PairCallsFollowCandidates(bodies, pass, nw, ps[..|ps| - 1]);
    }
  }

  // ---------------------------------------------------------------------
  // The schedule as traces

  /** One kernel call per body, in list order. */
  function BodyCalls(k: BodyKernel, bs: seq<Body>): seq<Call>
  {
    if bs == [] then [] else BodyCalls(k, bs[..|bs| - 1]) + [BodyCall(k, bs[|bs| - 1])]
  }

  /** One kernel call per contact, in list order. */
  function ContactCalls(k: ContactKernel, cs: seq<Contact>): seq<Call>
  {
    if cs == [] then [] else ContactCalls(k, cs[..|cs| - 1]) + [ContactCall(k, cs[|cs| - 1])]
  }

  /** `_JointSolve` (src/pgWorldObject.c:277-292): joints without a solver are
      skipped. */
  function JointCalls(js: seq<Joint>): seq<Call>
  {
    if js == [] then []
    else JointCalls(js[..|js| - 1]) + (if js[|js| - 1].hasSolver then [SolveJoint(js[|js| - 1])] else [])
  }

  /** The contact list a detection pass leaves: those of this pass only. */
  function PassContacts(bodies: seq<Body>, pass: nat, nw: Narrow): seq<Contact>
  {
    PairContacts(bodies, pass, nw, Pairs(|bodies|))
  }

  /** One solver round of a detection pass (src/pgWorldObject.c:241-267). */
  function RoundCalls(bodies: seq<Body>, contacts: seq<Contact>): seq<Call>
  {
    BodyCalls(ClearBias, bodies) + ContactCalls(ClearImpulse, contacts)
    + ContactCalls(ApplyContact, contacts) + ContactCalls(SolveContact, contacts)
  }

  function Repeat(s: seq<Call>, k: nat): seq<Call>
  {
    if k == 0 then [] else Repeat(s, k - 1) + s
  }

  /** `_BodyCollisionDetection` (src/pgWorldObject.c:194-269) as a trace: the
      boxes of all bodies, the narrow phase on each candidate pair, then `m`
      (MAX_ITERATION) solver rounds over this pass's contacts. */
  function DetectionCalls(bodies: seq<Body>, pass: nat, nw: Narrow, m: nat): seq<Call>
  {
    BodyCalls(UpdateAabb, bodies)
    + PairCalls(bodies, pass, nw, Pairs(|bodies|))
    + Repeat(RoundCalls(bodies, PassContacts(bodies, pass, nw)), m)
  }

  /** Pass number `pass` of `_Update`: detection, position correction and
      joint solving. */
  function PassCalls(bodies: seq<Body>, joints: seq<Joint>, nw: Narrow, m: nat, pass: nat): seq<Call>
  {
    DetectionCalls(bodies, pass, nw, m) + BodyCalls(CorrectPos, bodies) + JointCalls(joints)
  }

  /** The first `k` (detect, correct, joint-solve) passes of `_Update`. */
  function Passes(bodies: seq<Body>, joints: seq<Joint>, nw: Narrow, m: nat, k: nat): seq<Call>
  {
    Chunks((pass: nat) => PassCalls(bodies, joints, nw, m, pass), k)
  }

  /** The traces `f(0)`, ..., `f(c - 1)`, one after the other. */
  function Chunks(f: nat -> seq<Call>, c: nat): seq<Call>
  {
    if c == 0 then [] else Chunks(f, c - 1) + f(c - 1)
  }

  /** `_Update` (src/pgWorldObject.c:337-350) as a trace, for `m` =
      MAX_ITERATION: `m` passes, each with `m` solver rounds. */
  function UpdateCalls(bodies: seq<Body>, joints: seq<Joint>, nw: Narrow, m: nat): seq<Call>
  {
    BodyCalls(FreeUpdateVel, bodies) + Passes(bodies, joints, nw, m, m) + BodyCalls(FreeUpdatePos, bodies)
  }

  // ---------------------------------------------------------------------
  // Counting kernel calls

  /** How many calls of trace `t` run body kernel `k`. */
  function CountBody(t: seq<Call>, k: BodyKernel): nat
  {
    if t == [] then 0
    else CountBody(t[..|t| - 1], k) + (if t[|t| - 1].BodyCall? && t[|t| - 1].kernel == k then 1 else 0)
  }

  lemma {:induction false} CountBodyAppend(a: seq<Call>, b: seq<Call>, k: BodyKernel)
    ensures CountBody(a + b, k) == CountBody(a, k) + CountBody(b, k)
    decreases |b|
  {
    if b == [] {
      assert a + b == a;
    } else {
      assert (a + b)[..|a + b| - 1] == a + b[..|b| - 1];
      assert (a + b)[|a + b| - 1] == b[|b| - 1];
      CountBodyAppend(a, b[..|b| - 1], k);
    }
  }

  lemma {:induction false} CountBodyCalls(k: BodyKernel, bs: seq<Body>, k': BodyKernel)
    ensures CountBody(BodyCalls(k, bs), k') == if k == k' then |bs| else 0
  {
    if bs != [] {
      CountBodyAppend(BodyCalls(k, bs[..|bs| - 1]), [BodyCall(k, bs[|bs| - 1])], k');
      CountBodyCalls(k, bs[..|bs| - 1], k');
    }
  }

  lemma {:induction false} CountNoBodyCalls(t: seq<Call>, k: BodyKernel)
    requires forall i :: 0 <= i < |t| ==> !t[i].BodyCall?
    ensures CountBody(t, k) == 0
  {
    if t != [] {
      CountNoBodyCalls(t[..|t| - 1], k);
    }
  }

  lemma {:induction false} ContactCallsAreContactCalls(k: ContactKernel, cs: seq<Contact>)
    ensures forall i :: 0 <= i < |ContactCalls(k, cs)| ==> ContactCalls(k, cs)[i].ContactCall?
  {
    if cs != [] {
      ContactCallsAreContactCalls(k, cs[..|cs| - 1]);
    }
  }

  lemma {:induction false} PairCallsAreCollides(bodies: seq<Body>, pass: nat, nw: Narrow, ps: seq<(int, int)>)
    ensures forall i :: 0 <= i < |PairCalls(bodies, pass, nw, ps)| ==> PairCalls(bodies, pass, nw, ps)[i].Collide?
  {
    if ps != [] {
      PairCallsAreCollides(bodies, pass, nw, ps[..|ps| - 1]);
    }
  }

  lemma {:induction false} JointCallsSpec(js: seq<Joint>)
    ensures forall i :: 0 <= i < |JointCalls(js)| ==> JointCalls(js)[i].SolveJoint?
    ensures forall j :: SolveJoint(j) in JointCalls(js) <==> j in js && j.hasSolver
  {
    if js != [] {
      var init := js[..|js| - 1];
      JointCallsSpec(init);
      assert forall j :: j in js <==> j in init || j == js[|js| - 1];
    }
  }

  lemma {:induction false} CountRepeat(s: seq<Call>, m: nat, k: BodyKernel)
    ensures CountBody(Repeat(s, m), k) == m * CountBody(s, k)
  {
    if m > 0 {
      var c := CountBody(s, k);
      CountBodyAppend(Repeat(s, m - 1), s, k);
      CountRepeat(s, m - 1, k);
      assert (m - 1) * c + c == m * c;
    }
  }

  lemma CountRound(bodies: seq<Body>, contacts: seq<Contact>, k: BodyKernel)
    ensures CountBody(RoundCalls(bodies, contacts), k) == if k == ClearBias then |bodies| else 0
  {
    var a := BodyCalls(ClearBias, bodies);
    var b := ContactCalls(ClearImpulse, contacts);
    var c := ContactCalls(ApplyContact, contacts);
    var d := ContactCalls(SolveContact, contacts);
    CountBodyCalls(ClearBias, bodies, k);
    ContactCallsAreContactCalls(ClearImpulse, contacts);
    ContactCallsAreContactCalls(ApplyContact, contacts);
    ContactCallsAreContactCalls(SolveContact, contacts);
    CountNoBodyCalls(b, k);
    CountNoBodyCalls(c, k);
    CountNoBodyCalls(d, k);
    CountBodyAppend(a, b, k);
    CountBodyAppend(a + b, c, k);
    CountBodyAppend(a + b + c, d, k);
  }

  /** How often one detection pass with `m` solver rounds runs each body
      kernel on `n` bodies. */
  function DetectionShare(k: BodyKernel, n: nat, m: nat): nat
  {
    match k
    case UpdateAabb => n
    case ClearBias => m * n
    case _ => 0
  }

  lemma CountDetection(bodies: seq<Body>, pass: nat, nw: Narrow, m: nat, k: BodyKernel)
    ensures CountBody(DetectionCalls(bodies, pass, nw, m), k) == DetectionShare(k, |bodies|, m)
  {
    var a := BodyCalls(UpdateAabb, bodies);
    var b := PairCalls(bodies, pass, nw, Pairs(|bodies|));
    var r := RoundCalls(bodies, PassContacts(bodies, pass, nw));
    CountBodyCalls(UpdateAabb, bodies, k);
    PairCallsAreCollides(bodies, pass, nw, Pairs(|bodies|));
    CountNoBodyCalls(b, k);
    CountRound(bodies, PassContacts(bodies, pass, nw), k);
    CountRepeat(r, m, k);
    CountBodyAppend(a, b, k);
    CountBodyAppend(a + b, Repeat(r, m), k);
  }

  /** How often one (detect, correct, joint-solve) pass runs each body kernel. */
  function PassShare(k: BodyKernel, n: nat, m: nat): nat
  {
    DetectionShare(k, n, m) + (if k == CorrectPos then n else 0)
  }

  lemma CountPass(bodies: seq<Body>, joints: seq<Joint>, nw: Narrow, m: nat, pass: nat, k: BodyKernel)
    ensures CountBody(PassCalls(bodies, joints, nw, m, pass), k) == PassShare(k, |bodies|, m)
  {
    var d := DetectionCalls(bodies, pass, nw, m);
    var c := BodyCalls(CorrectPos, bodies);
    var j := JointCalls(joints);
    CountDetection(bodies, pass, nw, m, k);
    CountBodyCalls(CorrectPos, bodies, k);
    JointCallsSpec(joints);
    CountNoBodyCalls(j, k);
    CountBodyAppend(d, c, k);
    CountBodyAppend(d + c, j, k);
  }

  lemma {:induction false} CountChunks(f: nat -> seq<Call>, c: nat, k: BodyKernel, x: nat)
    requires forall i :: 0 <= i < c ==> CountBody(f(i), k) == x
    ensures CountBody(Chunks(f, c), k) == c * x
  {
    if c > 0 {
      CountChunks(f, c - 1, k, x);
      CountBodyAppend(Chunks(f, c - 1), f(c - 1), k);
      SumStep(CountBody(Chunks(f, c), k), CountBody(Chunks(f, c - 1), k), CountBody(f(c - 1), k), c, x);
    }
  }

  lemma CountPasses(bodies: seq<Body>, joints: seq<Joint>, nw: Narrow, m: nat, c: nat, k: BodyKernel)
    ensures CountBody(Passes(bodies, joints, nw, m, c), k) == c * PassShare(k, |bodies|, m)
  {
    var x := PassShare(k, |bodies|, m);
    forall i | 0 <= i < c
      ensures CountBody(PassCalls(bodies, joints, nw, m, i), k) == x
    {
      CountPass(bodies, joints, nw, m, i, k);
    }
    CountChunks((pass: nat) => PassCalls(bodies, joints, nw, m, pass), c, k, x);
  }

  /** `c` equal shares of `x`, of which the first `c - 1` sum to `y`. */
  lemma SumStep(total: nat, y: nat, z: nat, c: nat, x: nat)
    requires c > 0 && total == y + z && y == (c - 1) * x && z == x
    ensures total == c * x
  {
  }

  /** One world update with `m` = MAX_ITERATION runs the velocity and the
      position update once per body, box updates and position corrections
      `m` times per body (one detection pass each), and the bias reset `m`
      squared times per body. */
  lemma UpdateKernelCounts(bodies: seq<Body>, joints: seq<Joint>, nw: Narrow, m: nat)
    ensures var t := UpdateCalls(bodies, joints, nw, m);
            && CountBody(t, FreeUpdateVel) == |bodies|
            && CountBody(t, FreeUpdatePos) == |bodies|
            && CountBody(t, UpdateAabb) == m * |bodies|
            && CountBody(t, CorrectPos) == m * |bodies|
            && CountBody(t, ClearBias) == m * (m * |bodies|)
  {
    var a := BodyCalls(FreeUpdateVel, bodies);
    var p := Passes(bodies, joints, nw, m, m);
    var z := BodyCalls(FreeUpdatePos, bodies);
    forall k: BodyKernel
      ensures CountBody(UpdateCalls(bodies, joints, nw, m), k)
              == (if k == FreeUpdateVel then |bodies| else 0) + m * PassShare(k, |bodies|, m)
                 + (if k == FreeUpdatePos then |bodies| else 0)
    {
      CountBodyCalls(FreeUpdateVel, bodies, k);
      CountBodyCalls(FreeUpdatePos, bodies, k);
      CountPasses(bodies, joints, nw, m, m, k);
      CountBodyAppend(a, p, k);
      CountBodyAppend(a + p, z, k);
    }
  }

  // ---------------------------------------------------------------------
  // Identity-unique lists

  /** The position part of `PySequence_Index`: the first position of `x`, or
      -1. The error it sets along with -1 is stated by `SequenceIndex`. */
  function IndexOf<T(==)>(s: seq<T>, x: T): (i: int)
    ensures -1 <= i < |s|
    ensures i == -1 <==> x !in s
    ensures 0 <= i ==> s[i] == x && x !in s[..i]
  {
    if s == [] then -1
    else if s[0] == x then 0
    else
      var k := IndexOf(s[1..], x);
      assert s[1..][..(if k >= 0 then k else 0)] == s[1..(if k >= 0 then k + 1 else 1)];
      if k == -1 then -1 else k + 1
  }

  /** The message of the ValueError `PySequence_Index` sets for an element
      that is not in the sequence (CPython's `sequence.index`). */
  const NotInSequence := "sequence.index(x): x not in sequence"

  /** What `PySequence_Index` (src/pgWorldObject.c:664, 721) hands back: the
      first position of the element, or -1 with a ValueError set. */
  datatype Lookup = At(index: nat) | Missing(error: string)

  function SequenceIndex<T(==)>(s: seq<T>, x: T): (r: Lookup)
    ensures r.At? <==> x in s
    ensures r.At? ==> r.index < |s| && s[r.index] == x && x !in s[..r.index]
    ensures r.Missing? ==> r.error == NotInSequence
  {
    var i := IndexOf(s, x);
    if i == -1 then Missing(NotInSequence) else At(i)
  }

  /** `PySequence_DelItem` at the first position of `x`; unchanged if absent. */
  function RemoveFirst<T(==)>(s: seq<T>, x: T): seq<T>
  {
    var i := IndexOf(s, x);
    if i == -1 then s else s[..i] + s[i + 1..]
  }

  predicate NoDuplicates<T(==)>(s: seq<T>)
  {
    forall a, b :: 0 <= a < b < |s| ==> s[a] != s[b]
  }

  /** Removing deletes exactly the first occurrence and keeps the order of
      the rest; an absent element leaves the list as it was. */
  lemma RemoveFirstSpec<T>(s: seq<T>, x: T)
    ensures x !in s ==> RemoveFirst(s, x) == s
    ensures x in s ==>
      (&& |RemoveFirst(s, x)| == |s| - 1
       && multiset(RemoveFirst(s, x)) == multiset(s) - multiset{x}
       && exists i :: 0 <= i < |s| && s[i] == x && x !in s[..i] && RemoveFirst(s, x) == s[..i] + s[i + 1..])
  {
    var i := IndexOf(s, x);
    if i >= 0 {
      assert s == s[..i] + [x] + s[i + 1..];
      assert multiset(s) == multiset(s[..i]) + multiset{x} + multiset(s[i + 1..]);
    }
  }

  /** Removal keeps a list free of duplicates, and the element is then gone. */
  lemma RemoveKeepsUnique<T>(s: seq<T>, x: T)
    requires NoDuplicates(s)
    ensures NoDuplicates(RemoveFirst(s, x)) && x !in RemoveFirst(s, x)
  {
    var i := IndexOf(s, x);
    if i >= 0 {
      var r := RemoveFirst(s, x);
      assert |r| == |s| - 1;
      forall a | 0 <= a < |r|
        ensures r[a] == s[if a < i then a else a + 1]
      {
      }
      forall a, b | 0 <= a < b < |r|
        ensures r[a] != r[b]
      {
        assert r[a] == s[if a < i then a else a + 1];
        assert r[b] == s[if b < i then b else b + 1];
      }
      forall k | 0 <= k < |r|
        ensures r[k] != x
      {
        assert r[k] == s[if k < i then k else k + 1];
      }
    }
  }

  /** Adding to an identity-unique list keeps it unique. */
  lemma AppendKeepsUnique<T>(s: seq<T>, x: T)
    requires NoDuplicates(s) && x !in s
    ensures NoDuplicates(s + [x])
  {
  }

  // ---------------------------------------------------------------------
  // Python-level results

  /** What a C function of the binding hands back to Python: `None`, or NULL
      with an exception of the given type and message set. */
  datatype PyResult = ReturnsNone | Raises(exc: string, msg: string)

  /** The result of a C API call on a body or joint of the right type: 1, or 0
      with the message of the ValueError it set. */
  datatype ApiResult = Success | Failure(error: string)

  /** How the argument tuple of `W.update` looks. */
  datatype UpdateArg = NoArg | Number(x: real) | NotANumber

  /** `_World_update` as written (src/pgWorldObject.c:518-521): `"|d"` succeeds
      when the optional argument is absent and then leaves `dt` as it was,
      uninitialised (`garbage`); the default 0.1 is used only when parsing
      fails, with the TypeError it set still pending. */
  function UpdateStepAsWritten(arg: UpdateArg, garbage: real): (dt: real)
    ensures arg == NoArg ==> dt == garbage
    ensures arg == NotANumber ==> dt == 0.1
    ensures arg.Number? ==> dt == arg.x
  {
    match arg
    case NoArg => garbage
    case Number(x) => x
    case NotANumber => 0.1
  }

  /** With no argument, the step time actually used is whatever `dt` held, so
      `W.update ()` can simulate with a step other than the documented 0.1,
      or be refused as negative. */
  lemma UpdateDefaultIsUninitialised()
    ensures UpdateStepAsWritten(NoArg, -1.0) < 0.0
    ensures UpdateStepAsWritten(NoArg, 7.0) != 0.1
  {
  }

  /** The step time `W.update (steptime=0.1)` is documented to use
      (src/pgWorldObject.c:89), or None when the argument is not a number and
      parsing raises a TypeError. */
  function UpdateStep(arg: UpdateArg): (dt: Option<real>)
    ensures arg == NoArg ==> dt == Some(0.1)
    ensures arg.Number? ==> dt == Some(arg.x)
    ensures dt == None <==> arg == NotANumber
  {
    match arg
    case NoArg => Some(0.1)
    case Number(x) => Some(x)
    case NotANumber => None
  }

  /** The tail of `W.remove_body` and `W.remove_joint`
      (src/pgWorldObject.c:568-570, 607-609): a failed C API call returns NULL
      with the error it set still pending, so Python sees that ValueError;
      success returns None. */
  function PropagateResult(api: ApiResult): (r: PyResult)
    ensures r == ReturnsNone <==> api == Success
    ensures api.Failure? ==> r == Raises("ValueError", api.error)
  {
    match api
    case Success => ReturnsNone
    case Failure(e) => Raises("ValueError", e)
  }

  /** Removing an element that was never added raises the ValueError the
      docstrings promise (src/pgWorldObject.c:106-113), with the message that
      `PySequence_Index` sets. */
  lemma RemovingAbsentRaisesValueError<T>(s: seq<T>, x: T)
    requires x !in s
    ensures var l := SequenceIndex(s, x);
      l.Missing? && PropagateResult(Failure(l.error)) == Raises("ValueError", NotInSequence)
  {
  }

  /** The fields of a world other than its trace. */
  datatype WorldFields = WorldFields(bodies: seq<Body>, joints: seq<Joint>, contacts: seq<Contact>,
                                     damping: real, stepTime: real, gravity: (real, real), totalTime: real)

  /** A PyWorldObject. `calls` records the kernel calls it makes. */
  class World {
    /** MAX_ITERATION, as the update loops of this world see it. */
    const maxIteration: Iterations
    var bodyList: seq<Body>
    var jointList: seq<Joint>
    var contactList: seq<Contact>
    var damping: real
    var stepTime: real
    var gravity: (real, real)
    var totalTime: real
    var calls: seq<Call>

    function Fields(): WorldFields
      reads this
    {
      WorldFields(bodyList, jointList, contactList, damping, stepTime, gravity, totalTime)
    }

    /** The lists stay identity-unique. */
    ghost predicate Valid()
      reads this
    {
      NoDuplicates(bodyList) && NoDuplicates(jointList)
    }

    /** `_WorldInit` (src/pgWorldObject.c:357-366). */
    constructor ()
      ensures Valid()
      ensures Fields() == WorldFields([], [], [], 0.0, 0.1, (0.0, -10.0), 0.0)
      ensures calls == [] && maxIteration == MaxIteration
    {
      maxIteration := MaxIteration;
      bodyList, jointList, contactList := [], [], [];
      damping, stepTime, gravity, totalTime := 0.0, 0.1, (0.0, -10.0), 0.0;
      calls := [];
    }

    /** `PyWorld_AddBody` (src/pgWorldObject.c:618-646) for an argument that is
        a body: a body already in the list is refused with "body already
        added" and the list is unchanged; otherwise it is appended. */
    method AddBody(b: Body) returns (r: ApiResult)
      requires Valid()
      modifies this
      ensures Valid()
      ensures old(b in bodyList) ==> r == Failure("body already added") && bodyList == old(bodyList)
      ensures old(b !in bodyList) ==> r == Success && bodyList == old(bodyList) + [b]
      ensures Fields() == old(Fields()).(bodies := bodyList) && calls == old(calls)
    {
      if b in bodyList {
        return Failure("body already added");
      }
      AppendKeepsUnique(bodyList, b);
      bodyList := bodyList + [b];
      r := Success;
    }

    /** `PyWorld_RemoveBody` (src/pgWorldObject.c:648-673): the first
        occurrence is deleted; an absent body gives 0 with the ValueError of
        `PySequence_Index` set. */
    method RemoveBody(b: Body) returns (r: ApiResult)
      requires Valid()
      modifies this
      ensures Valid()
      ensures r == (if old(b in bodyList) then Success else Failure(NotInSequence))
      ensures bodyList == RemoveFirst(old(bodyList), b) && b !in bodyList
      ensures Fields() == old(Fields()).(bodies := bodyList) && calls == old(calls)
    {
      RemoveFirstSpec(bodyList, b);
      RemoveKeepsUnique(bodyList, b);
      match SequenceIndex(bodyList, b)
      case At(i) =>
        bodyList := bodyList[..i] + bodyList[i + 1..];
        r := Success;
      case Missing(e) =>
        r := Failure(e);
    }

    /** `PyWorld_AddJoint` (src/pgWorldObject.c:675-703). */
    method AddJoint(j: Joint) returns (r: ApiResult)
      requires Valid()
      modifies this
      ensures Valid()
      ensures old(j in jointList) ==> r == Failure("joint already added") && jointList == old(jointList)
      ensures old(j !in jointList) ==> r == Success && jointList == old(jointList) + [j]
      ensures Fields() == old(Fields()).(joints := jointList) && calls == old(calls)
    {
      if j in jointList {
        return Failure("joint already added");
      }
      AppendKeepsUnique(jointList, j);
      jointList := jointList + [j];
      r := Success;
    }

    /** `PyWorld_RemoveJoint` (src/pgWorldObject.c:705-730). */
    method RemoveJoint(j: Joint) returns (r: ApiResult)
      requires Valid()
      modifies this
      ensures Valid()
      ensures r == (if old(j in jointList) then Success else Failure(NotInSequence))
      ensures jointList == RemoveFirst(old(jointList), j) && j !in jointList
      ensures Fields() == old(Fields()).(joints := jointList) && calls == old(calls)
    {
      RemoveFirstSpec(jointList, j);
      RemoveKeepsUnique(jointList, j);
      match SequenceIndex(jointList, j)
      case At(i) =>
        jointList := jointList[..i] + jointList[i + 1..];
        r := Success;
      case Missing(e) =>
        r := Failure(e);
    }

    /** `W.remove_body` (src/pgWorldObject.c:556-571) for a body argument: an
        absent body raises the documented ValueError, with the message of
        `PySequence_Index`. */
    method PyRemoveBody(b: Body) returns (r: PyResult)
      requires Valid()
      modifies this
      ensures Valid()
      ensures r == (if old(b in bodyList) then ReturnsNone else Raises("ValueError", NotInSequence))
      ensures bodyList == RemoveFirst(old(bodyList), b)
      ensures Fields() == old(Fields()).(bodies := bodyList) && calls == old(calls)
    {
      var api := RemoveBody(b);
      r := PropagateResult(api);
    }

    /** `W.remove_joint` (src/pgWorldObject.c:595-610) for a joint argument, as
        `PyRemoveBody`. */
    method PyRemoveJoint(j: Joint) returns (r: PyResult)
      requires Valid()
      modifies this
      ensures Valid()
      ensures r == (if old(j in jointList) then ReturnsNone else Raises("ValueError", NotInSequence))
      ensures jointList == RemoveFirst(old(jointList), j)
      ensures Fields() == old(Fields()).(joints := jointList) && calls == old(calls)
    {
      var api := RemoveJoint(j);
      r := PropagateResult(api);
    }

    /** One body kernel over the body list, in order. */
    method ForEachBody(k: BodyKernel)
      modifies this
      ensures calls == old(calls) + BodyCalls(k, bodyList)
      ensures Fields() == old(Fields())
    {
      var i := 0;
      while i < |bodyList|
        invariant 0 <= i <= |bodyList|
        invariant calls == old(calls) + BodyCalls(k, bodyList[..i])
        invariant Fields() == old(Fields())
      {
        assert bodyList[..i + 1][..i] == bodyList[..i];
        calls := calls + [BodyCall(k, bodyList[i])];
        i := i + 1;
      }
      assert bodyList[..i] == bodyList;
    }

    /** One contact kernel over the contact list, in order. */
    method ForEachContact(k: ContactKernel)
      modifies this
      ensures calls == old(calls) + ContactCalls(k, contactList)
      ensures Fields() == old(Fields())
    {
      var i := 0;
      while i < |contactList|
        invariant 0 <= i <= |contactList|
        invariant calls == old(calls) + ContactCalls(k, contactList[..i])
        invariant Fields() == old(Fields())
      {
        assert contactList[..i + 1][..i] == contactList[..i];
        calls := calls + [ContactCall(k, contactList[i])];
        i := i + 1;
      }
      assert contactList[..i] == contactList;
    }

    /** `_JointSolve`. */
    method JointSolve()
      modifies this
      ensures calls == old(calls) + JointCalls(jointList)
      ensures Fields() == old(Fields())
    {
      var i := 0;
      while i < |jointList|
        invariant 0 <= i <= |jointList|
        invariant calls == old(calls) + JointCalls(jointList[..i])
        invariant Fields() == old(Fields())
      {
        assert jointList[..i + 1][..i] == jointList[..i];
        if jointList[i].hasSolver {
          calls := calls + [SolveJoint(jointList[i])];
        }
        i := i + 1;
      }
      assert jointList[..i] == jointList;
    }

    /** The collision test of `_BodyCollisionDetection`: every pair i < j of
        the body list, the narrow phase on the candidates, appending their
        contacts to the contact list. */
    method CollisionPairs(pass: nat, nw: Narrow)
      modifies this
      ensures Fields() == old(Fields()).(contacts := contactList)
      ensures calls == old(calls) + PairCalls(bodyList, pass, nw, Pairs(|bodyList|))
      ensures contactList == old(contactList) + PairContacts(bodyList, pass, nw, Pairs(|bodyList|))
    {
      var cs, ct := ScanPairs(bodyList, pass, nw);
      calls := calls + cs;
      contactList := contactList + ct;
    }

    /** Empties the contact list (src/pgWorldObject.c:203-206). */
    method ClearContacts()
      modifies this
      ensures Fields() == old(Fields()).(contacts := []) && calls == old(calls)
    {
      contactList := [];
    }

    /** One solver round of a detection pass. */
    method SolverRound()
      modifies this
      ensures calls == old(calls) + RoundCalls(bodyList, contactList)
      ensures Fields() == old(Fields())
    {
      ForEachBody(ClearBias);
      ForEachContact(ClearImpulse);
      ForEachContact(ApplyContact);
      ForEachContact(SolveContact);
    }

    /** `_BodyCollisionDetection` (src/pgWorldObject.c:194-269), detection pass
        number `pass`: the contact list is emptied first, so it then holds
        the contacts of this pass only. */
    method DetectCollisions(pass: nat, nw: Narrow)
      modifies this
      ensures Fields() == old(Fields()).(contacts := contactList)
      ensures calls == old(calls) + DetectionCalls(bodyList, pass, nw, maxIteration)
      ensures contactList == PassContacts(bodyList, pass, nw)
    {
      ClearContacts();
      ForEachBody(UpdateAabb);
      ghost var boxes := BodyCalls(UpdateAabb, bodyList);
      CollisionPairs(pass, nw);
      ghost var pairs := PairCalls(bodyList, pass, nw, Pairs(|bodyList|));
      assert contactList == PassContacts(bodyList, pass, nw);
      ghost var fields := Fields();
      ghost var before := calls;
      ghost var round := RoundCalls(bodyList, contactList);
      var k := 0;
      while k < maxIteration
        invariant 0 <= k <= maxIteration
        invariant Fields() == fields
        invariant calls == before + Repeat(round, k)
      {
        SolverRound();
        AppendAssoc(before, Repeat(round, k), round);
        k := k + 1;
      }
      AppendAssoc(old(calls), boxes, pairs);
      AppendAssoc(old(calls), boxes + pairs, Repeat(round, maxIteration));
    }

    /** `_Update` (src/pgWorldObject.c:337-350) with a step time of `dt`: the
        free-body velocity update, MAX_ITERATION passes of (detection,
        position correction, joint solve), and the position update. The step
        time is handed to the kernels, whose numerics are not modelled. */
    method Update(dt: real, nw: Narrow)
      modifies this
      ensures Fields() == old(Fields()).(contacts := contactList)
      ensures calls == old(calls) + UpdateCalls(bodyList, jointList, nw, maxIteration)
      ensures contactList == PassContacts(bodyList, maxIteration - 1, nw)
    {
      ForEachBody(FreeUpdateVel);
      ghost var vel := BodyCalls(FreeUpdateVel, bodyList);
      RunPasses(nw);
      ghost var passes := Passes(bodyList, jointList, nw, maxIteration, maxIteration);
      ghost var last := contactList;
      ForEachBody(FreeUpdatePos);
      assert contactList == last;
      AppendAssoc(old(calls), vel, passes);
      AppendAssoc(old(calls), vel + passes, BodyCalls(FreeUpdatePos, bodyList));
    }

    /** The MAX_ITERATION passes of the `_Update` loop
        (src/pgWorldObject.c:341-347). */
    method RunPasses(nw: Narrow)
      modifies this
      ensures Fields() == old(Fields()).(contacts := contactList)
      ensures calls == old(calls) + Passes(bodyList, jointList, nw, maxIteration, maxIteration)
      ensures contactList == PassContacts(bodyList, maxIteration - 1, nw)
    {
      ghost var fields := Fields();
      ghost var bodies, joints := bodyList, jointList;
      var i := 0;
      assert old(calls) + [] == old(calls);
      while i < maxIteration
        invariant 0 <= i <= maxIteration
        invariant Fields() == fields.(contacts := contactList)
        invariant calls == old(calls) + Passes(bodies, joints, nw, maxIteration, i)
        invariant i > 0 ==> contactList == PassContacts(bodies, i - 1, nw)
      {
        ghost var done := Passes(bodies, joints, nw, maxIteration, i);
        ghost var pass := PassCalls(bodies, joints, nw, maxIteration, i);
        UpdatePass(i, nw);
        AppendAssoc(old(calls), done, pass);
        i := i + 1;
      }
    }

    /** Pass number `pass` of the `_Update` loop. */
    method UpdatePass(pass: nat, nw: Narrow)
      modifies this
      ensures calls == old(calls) + PassCalls(bodyList, jointList, nw, maxIteration, pass)
      ensures contactList == PassContacts(bodyList, pass, nw)
      ensures Fields() == old(Fields()).(contacts := contactList)
    {
      DetectCollisions(pass, nw);
      ForEachBody(CorrectPos);
      JointSolve();
    }

    /** `W.update` (src/pgWorldObject.c:516-531) with the step time documented
        for a missing argument: a negative step time raises a ValueError
        before anything is simulated, a non-number raises a TypeError. */
    method PyUpdate(arg: UpdateArg, nw: Narrow) returns (r: PyResult)
      modifies this
      ensures UpdateStep(arg) == None ==>
        r == Raises("TypeError", "a float is required") && Fields() == old(Fields()) && calls == old(calls)
      ensures UpdateStep(arg).Some? && UpdateStep(arg).value < 0.0 ==>
        r == Raises("ValueError", "step time must not be smaller than 0") && Fields() == old(Fields()) && calls == old(calls)
      ensures UpdateStep(arg).Some? && UpdateStep(arg).value >= 0.0 ==>
        r == ReturnsNone && calls == old(calls) + UpdateCalls(bodyList, jointList, nw, maxIteration)
        && Fields() == old(Fields()).(contacts := PassContacts(bodyList, maxIteration - 1, nw))
    {
      var dt := UpdateStep(arg);
      if dt == None {
        return Raises("TypeError", "a float is required");
      }
      if dt.value < 0.0 {
        return Raises("ValueError", "step time must not be smaller than 0");
      }
      Update(dt.value, nw);
      r := ReturnsNone;
    }

    /** `PyWorld_Update` (src/pgWorldObject.c:732-742), the C API: it runs the
        update whatever the sign of `dt` and returns 1. */
    method ApiUpdate(dt: real, nw: Narrow) returns (r: int)
      modifies this
      ensures r == 1
      ensures calls == old(calls) + UpdateCalls(bodyList, jointList, nw, maxIteration)
      ensures Fields() == old(Fields()).(contacts := PassContacts(bodyList, maxIteration - 1, nw))
    {
      Update(dt, nw);
      r := 1;
    }
  }
}
