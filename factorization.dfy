/**
  * Stage factorisation of a KISS FFT plan: the do/while loop of the kissfft
  * constructor that splits nfft into stage radices, trying 4 first, then 2,
  * then 3, 5, 7, 9, ... and taking what is left as the last radix once the
  * candidate squared exceeds it.
  */
module Factorization {

  import opened Arith

  /** One stage of a plan: the radix taken out and what remains after it. */
  datatype Stage = Stage(radix: nat, remainder: nat)

  predicate Divides(d: nat, n: nat) {
    d > 0 && n % d == 0
  }

  /** The candidate tried after p: 4 -> 2 -> 3 -> 5 -> 7 -> 9 -> ... */
  function NextCandidate(p: nat): nat {
    if p == 4 then 2 else if p == 2 then 3 else p + 2
  }

  /** The measure of the candidate search while the candidate has not been capped. */
  function SearchMeasure(n: nat, p: nat): nat {
    if p == 4 then n + 4 else if p <= n then n - p + 2 else n + 3
  }

  lemma SquareAtLeast(q: nat)
    ensures q <= q * q || q == 0
  {
    if q > 0 {
      assert q * q == q * (q - 1) + q;
    }
  }

  /**
    * The inner `while (n % p)` loop: the radix the search settles on when it
    * starts from candidate p with n left to factor.
    */
  function FindRadix(n: nat, p: nat): (r: nat)
    requires p > 0 && (p >= 2 || p == n)
    decreases if p == n then 0 else 1, SearchMeasure(n, p)
  {
    if n % p == 0 then p
    else
      var q := NextCandidate(p);
      SquareAtLeast(q);
      FindRadix(n, if q * q > n then n else q)
  }

  /** The search always settles on a divisor of n, which is at least 2 unless it is n itself. */
  lemma {:induction false} FindRadixDivides(n: nat, p: nat)
    requires p > 0 && (p >= 2 || p == n)
    ensures var r := FindRadix(n, p); r > 0 && n % r == 0 && (r >= 2 || r == n)
    decreases if p == n then 0 else 1, SearchMeasure(n, p)
  {
    if n % p != 0 {
      SearchStep(n, p);
      var q := NextCandidate(p);
      FindRadixDivides(n, if q * q > n then n else q);
    }
  }

  /** One round of the candidate search keeps the search's result and makes progress. */
  lemma SearchStep(n: nat, p: nat)
    requires p > 0 && (p >= 2 || p == n) && n % p != 0
    ensures var q := NextCandidate(p);
            var next := if q * q > n then n else q;
            && next > 0 && (next >= 2 || next == n)
            && FindRadix(n, p) == FindRadix(n, next)
            && (next == n || (p != n && SearchMeasure(n, next) < SearchMeasure(n, p)))
  {
    var q := NextCandidate(p);
    if q * q <= n {
      SquareAtLeast(q);
      MeasureDrops(n, p);
    }
  }

  lemma MeasureDrops(n: nat, p: nat)
    requires p >= 2 && NextCandidate(p) <= n
    ensures SearchMeasure(n, NextCandidate(p)) < SearchMeasure(n, p)
  {
  }

  lemma DivShrinks(n: nat, r: nat)
    requires n >= 1 && r >= 2
    ensures n / r < n
  {
  }

  /** Every stage from remainder n and current candidate p, in the order the loop emits them. */
  function Stages(n: nat, p: nat): (s: seq<Stage>)
    requires p >= 2
    ensures |s| >= 1
    decreases n
  {
    var r := FindRadix(n, p);
    FindRadixDivides(n, p);
    var rest := n / r;
    if rest > 1 then
      DivShrinks(n, r);
      [Stage(r, rest)] + Stages(rest, r)
    else
      [Stage(r, rest)]
  }

  lemma StagesUnfold(n: nat, p: nat)
    requires p >= 2
    ensures var r := FindRadix(n, p);
            && r > 0 && n % r == 0 && (r >= 2 || r == n)
            && Stages(n, p) == [Stage(r, n / r)] + (if n / r > 1 then Stages(n / r, r) else [])
  {
    FindRadixDivides(n, p);
  }

  /** The plan of an nfft-point transform. */
  function Plan(nfft: nat): seq<Stage> {
    Stages(nfft, 4)
  }

  function Radices(st: seq<Stage>): (r: seq<nat>)
    ensures |r| == |st|
  {
    seq(|st|, i requires 0 <= i < |st| => st[i].radix)
  }

  function Remainders(st: seq<Stage>): (m: seq<nat>)
    ensures |m| == |st|
  {
    seq(|st|, i requires 0 <= i < |st| => st[i].remainder)
  }

  function Product(s: seq<nat>): nat {
    if s == [] then 1 else s[0] * Product(s[1..])
  }

  lemma RadicesSnoc(st: seq<Stage>, s: Stage)
    ensures Radices(st + [s]) == Radices(st) + [s.radix]
    ensures Remainders(st + [s]) == Remainders(st) + [s.remainder]
  {
    assert (st + [s])[|st|] == s;
  }

  /** Emitting the stage the search found keeps the loop's account of the plan. */
  lemma EmitStage(nfft: nat, done: seq<Stage>, n: nat, p0: nat, r: nat)
    requires p0 >= 2 && r == FindRadix(n, p0)
    requires done + Stages(n, p0) == Plan(nfft)
    ensures r > 0 && n % r == 0
    ensures n / r > 1 ==> r >= 2 && n / r < n && done + [Stage(r, n / r)] + Stages(n / r, r) == Plan(nfft)
    ensures n / r <= 1 ==> done + [Stage(r, n / r)] == Plan(nfft)
  {
    StagesUnfold(n, p0);
    if n / r > 1 {
      DivShrinks(n, r);
    }
  }

  /**
    * The inner `while (n % p)` loop of the constructor: from candidate p it
    * moves along the candidate sequence, capping at n, until p divides n.
    */
  method SearchRadix(n: nat, p0: nat) returns (p: nat)
    requires p0 >= 2
    ensures p == FindRadix(n, p0)
  {
    p := p0;
    while n % p != 0
      invariant p > 0 && (p >= 2 || p == n)
      invariant FindRadix(n, p) == FindRadix(n, p0)
      decreases if p == n then 0 else 1, SearchMeasure(n, p)
    {
      SearchStep(n, p);
      p := NextCandidate(p);
      if p * p > n {
        p := n;
      }
    }
  }

  /**
    * The constructor's factorisation loop. It returns `_stageRadix`,
    * `_stageRemainder` and the final value of the candidate `p`, which the
    * constructor then uses to size the scratch buffer.
    */
  method Factorize(nfft: nat) returns (stageRadix: seq<nat>, stageRemainder: seq<nat>, p: nat)
    ensures stageRadix == Radices(Plan(nfft)) && stageRemainder == Remainders(Plan(nfft))
    ensures |stageRadix| >= 1 && p == stageRadix[|stageRadix| - 1]
  {
    var n: nat := nfft;
    p := 4;
    stageRadix, stageRemainder := [], [];
    ghost var done: seq<Stage> := [];
    while true
      invariant p >= 2
      invariant done + Stages(n, p) == Plan(nfft)
      invariant stageRadix == Radices(done) && stageRemainder == Remainders(done)
      decreases n
    {
      var rest;
      p, rest := NextStage(nfft, n, p, done);
      RadicesSnoc(done, Stage(p, rest));
      done := done + [Stage(p, rest)];
      n := rest;
      stageRadix := stageRadix + [p];
      stageRemainder := stageRemainder + [n];
      if n <= 1 {
        break;
      }
    }
  }

  /** One pass of the constructor's loop: search for the radix p, then divide n by it. */
  method NextStage(ghost nfft: nat, n: nat, p0: nat, ghost done: seq<Stage>) returns (p: nat, rest: nat)
    requires p0 >= 2 && done + Stages(n, p0) == Plan(nfft)
    ensures rest > 1 ==> p >= 2 && rest < n && done + [Stage(p, rest)] + Stages(rest, p) == Plan(nfft)
    ensures rest <= 1 ==> done + [Stage(p, rest)] == Plan(nfft)
  {
    p := SearchRadix(n, p0);
    EmitStage(nfft, done, n, p0, p);
    rest := n / p;
  }

  // ---------------------------------------------------------------------
  // Arithmetic of a plan: products and remainders
  // ---------------------------------------------------------------------

  lemma ProductSnoc(s: seq<nat>, x: nat)
    ensures Product(s + [x]) == Product(s) * x
    decreases |s|
  {
    if s != [] {
      assert (s + [x])[1..] == s[1..] + [x];
      ProductSnoc(s[1..], x);
    }
  }

  lemma RadicesCons(s: Stage, st: seq<Stage>)
    ensures Radices([s] + st) == [s.radix] + Radices(st)
    ensures Remainders([s] + st) == [s.remainder] + Remainders(st)
  {
  }

  /** The value stage i of a plan for n divides: n itself, then each earlier remainder. */
  function Before(st: seq<Stage>, n: nat, i: nat): nat
    requires i < |st|
  {
    if i == 0 then n else st[i - 1].remainder
  }

  /** Each stage splits the value before it into radix times remainder. */
  ghost predicate Chained(st: seq<Stage>, n: nat) {
    forall i :: 0 <= i < |st| ==> st[i].radix * st[i].remainder == Before(st, n, i)
  }

  lemma {:induction false} StagesChained(n: nat, p: nat)
    requires p >= 2
    ensures Chained(Stages(n, p), n)
    decreases n
  {
    var r := FindRadix(n, p);
    var st := Stages(n, p);
    StagesUnfold(n, p);
    DivExact(n, r);
    if n / r > 1 {
      DivShrinks(n, r);
      var rest := Stages(n / r, r);
      StagesChained(n / r, r);
      forall i | 1 <= i < |st|
        ensures st[i].radix * st[i].remainder == Before(st, n, i)
      {
        assert st[i] == rest[i - 1];
        assert Before(st, n, i) == Before(rest, n / r, i - 1);
      }
    }
  }

  /** The loop stops exactly when the remainder drops to 1 (or below, for nfft == 0). */
  lemma {:induction false} StagesLast(n: nat, p: nat)
    requires p >= 2
    ensures var st := Stages(n, p);
            && (forall i :: 0 <= i < |st| - 1 ==> st[i].remainder > 1)
            && st[|st| - 1].remainder <= 1
            && (n >= 1 ==> st[|st| - 1].remainder == 1)
    decreases n
  {
    var r := FindRadix(n, p);
    var st := Stages(n, p);
    StagesUnfold(n, p);
    if n / r > 1 {
      DivShrinks(n, r);
      var rest := Stages(n / r, r);
      StagesLast(n / r, r);
      assert st == [Stage(r, n / r)] + rest;
      assert st[|st| - 1] == rest[|rest| - 1];
      forall i | 1 <= i < |st| - 1
        ensures st[i].remainder > 1
      {
        assert st[i] == rest[i - 1];
      }
    } else if n >= 1 {
      assert r <= n by { DivisorBound(n, r); }
    }
  }

  lemma DivisorBound(n: nat, d: nat)
    requires n >= 1 && d > 0 && n % d == 0
    ensures d <= n && n / d >= 1
  {
  }

  /** Radix times remainder at stage i, times the radices before it, gives n back. */
  lemma {:induction false} ChainedPrefix(st: seq<Stage>, n: nat, i: nat)
    requires Chained(st, n) && i < |st|
    ensures Product(Radices(st)[..i + 1]) * st[i].remainder == n
    decreases i
  {
    var rs := Radices(st);
    if i == 0 {
      assert rs[..1] == [st[0].radix];
      assert Product(rs[..1]) == st[0].radix * Product([]);
    } else {
      ChainedPrefix(st, n, i - 1);
      assert rs[..i + 1] == rs[..i] + [st[i].radix];
      ProductSnoc(rs[..i], st[i].radix);
      var f := Product(rs[..i]);
      assert rs[..i] == rs[..i - 1 + 1];
      MulAssoc(f, st[i].radix, st[i].remainder);
    }
  }

  /**
    * `_stageRemainder[i]` is nfft divided by the product of the radices up
    * to and including stage i, and each radix divides the value it was
    * taken from.
    */
  lemma PlanRemainders(nfft: nat, i: nat)
    requires i < |Plan(nfft)|
    ensures var st := Plan(nfft);
            && Product(Radices(st)[..i + 1]) * st[i].remainder == nfft
            && st[i].radix > 0 && Before(st, nfft, i) % st[i].radix == 0
  {
    StagesChained(nfft, 4);
    var st := Plan(nfft);
    ChainedPrefix(st, nfft, i);
    var r, m := st[i].radix, st[i].remainder;
    assert r * m == Before(st, nfft, i);
    if i == 0 {
      assert r == FindRadix(nfft, 4) by { StagesUnfold(nfft, 4); }
    } else {
      PlanLast(nfft);
      assert r * m > 1;
    }
    MulMod(r, m);
  }

  /**
    * At stage s the transform's `fstride` is the product of the radices
    * before s, and `fstride * p * m == nfft`.
    */
  lemma StageSize(nfft: nat, s: nat)
    requires s < |Plan(nfft)|
    ensures var st := Plan(nfft);
            Product(Radices(st)[..s]) * st[s].radix * st[s].remainder == nfft
  {
    var st := Plan(nfft);
    var rs := Radices(st);
    PlanRemainders(nfft, s);
    assert rs[..s + 1] == rs[..s] + [st[s].radix];
    ProductSnoc(rs[..s], st[s].radix);
  }

  /** The first stage splits nfft itself into radix times remainder. */
  lemma PlanFirst(nfft: nat)
    requires |Plan(nfft)| >= 1
    ensures Plan(nfft)[0].radix * Plan(nfft)[0].remainder == nfft
  {
    StagesUnfold(nfft, 4);
    var r := FindRadix(nfft, 4);
    DivExact(nfft, r);
    assert Plan(nfft)[0] == Stage(r, nfft / r);
  }

  /** Each stage after the first splits the previous remainder into radix times remainder. */
  lemma PlanChain(nfft: nat, i: nat)
    requires i + 1 < |Plan(nfft)|
    ensures var st := Plan(nfft); st[i + 1].radix * st[i + 1].remainder == st[i].remainder
  {
    StagesChained(nfft, 4);
    var st := Plan(nfft);
    assert Before(st, nfft, i + 1) == st[i].remainder;
  }

  /** The last remainder is 1 for every nfft >= 1, and every earlier one exceeds 1. */
  lemma PlanLast(nfft: nat)
    ensures var st := Plan(nfft);
            && (forall i :: 0 <= i < |st| - 1 ==> st[i].remainder > 1)
            && (nfft >= 1 ==> st[|st| - 1].remainder == 1)
  {
    StagesLast(nfft, 4);
  }

  /** The product of `_stageRadix` is nfft, for every nfft >= 1. */
  lemma PlanProduct(nfft: nat)
    requires nfft >= 1
    ensures Product(Radices(Plan(nfft))) == nfft
  {
    var st := Plan(nfft);
    PlanLast(nfft);
    PlanRemainders(nfft, |st| - 1);
    assert Radices(st)[..|st|] == Radices(st);
  }

  /** A one-point transform gets the single stage (radix 1, remainder 1). */
  lemma PlanOfOne()
    ensures Plan(1) == [Stage(1, 1)]
  {
    assert FindRadix(1, 2) == 1;
    assert FindRadix(1, 4) == 1;
  }

  /** For nfft >= 2 every radix is at least 2, so the remainders strictly decrease. */
  lemma {:induction false} StagesShrink(n: nat, p: nat)
    requires p >= 2 && n >= 2
    ensures var st := Stages(n, p);
            && (forall i :: 0 <= i < |st| ==> st[i].radix >= 2)
            && st[0].remainder < n
            && (forall i :: 1 <= i < |st| ==> st[i].remainder < st[i - 1].remainder)
    decreases n
  {
    var r := FindRadix(n, p);
    var st := Stages(n, p);
    StagesUnfold(n, p);
    DivShrinks(n, r);
    if n / r > 1 {
      var rest := Stages(n / r, r);
      StagesShrink(n / r, r);
      forall i | 1 <= i < |st|
        ensures st[i].radix >= 2
        ensures st[i].remainder < st[i - 1].remainder
      {
        assert st[i] == rest[i - 1];
        if i >= 2 {
          assert st[i - 1] == rest[i - 2];
        }
      }
    }
  }

  lemma PlanShrinks(nfft: nat)
    requires nfft >= 2
    ensures var st := Plan(nfft);
            && (forall i :: 0 <= i < |st| ==> st[i].radix >= 2)
            && (forall i :: 1 <= i < |st| ==> st[i].remainder < st[i - 1].remainder)
  {
    StagesShrink(nfft, 4);
  }

  // ---------------------------------------------------------------------
  // Order of the radices: 4s, then at most one 2, then odd factors rising
  // ---------------------------------------------------------------------

  /** The radices the search can settle on: 4, 2, or an odd number. */
  predicate Candidate(r: nat) {
    r == 4 || r == 2 || r % 2 == 1
  }

  /** Position of a radix in the candidate order 4 -> 2 -> 3 -> 5 -> 7 -> ... */
  function Rank(r: nat): nat {
    if r == 4 then 0 else if r == 2 then 1 else r
  }

  /** The next candidate is a candidate again, later in the candidate order. */
  lemma NextCandidateFacts(p: nat)
    requires p >= 2 && Candidate(p)
    ensures var q := NextCandidate(p); q >= 2 && Candidate(q) && Rank(p) < Rank(q)
  {
  }

  /** What the search has already ruled out about n by the time candidate p is tried. */
  ghost predicate Reduced(n: nat, p: nat) {
    && (p == 2 ==> n % 4 != 0)
    && (p % 2 == 1 ==> n % 2 != 0 && forall d :: 3 <= d < p ==> !Divides(d, n))
  }

  lemma DividesTrans(a: nat, b: nat, c: nat)
    requires Divides(a, b) && Divides(b, c)
    ensures Divides(a, c)
  {
    var x, y := b / a, c / b;
    DivModUnique(b, a, x, 0);
    DivModUnique(c, b, y, 0);
    assert c == a * (x * y);
    MulMod(a, x * y);
  }

  /** Ruling out candidate p lets the search move to the next candidate. */
  lemma ReducedStep(n: nat, p: nat)
    requires p >= 2 && Candidate(p) && Reduced(n, p) && n % p != 0
    ensures Reduced(n, NextCandidate(p))
  {
    if p % 2 == 1 {
      forall d | 3 <= d < p + 2
        ensures !Divides(d, n)
      {
        if d == p + 1 && Divides(d, n) {
          DividesTrans(2, d, n);
        }
      }
    }
  }

  lemma HalfOfTwiceOdd(n: nat)
    requires n % 2 == 0 && n % 4 != 0
    ensures (n / 2) % 2 != 0
  {
    var k := n / 2;
    DivModUnique(n, 2, k, 0);
    if k % 2 == 0 {
      DivModUnique(n, 4, k / 2, 0);
    }
  }

  lemma QuotientOfOdd(n: nat, p: nat)
    requires n % 2 != 0 && p > 0 && n % p == 0
    ensures (n / p) % 2 != 0
  {
    var k := n / p;
    DivModUnique(n, p, k, 0);
    if k % 2 == 0 {
      assert n == 2 * (p * (k / 2));
      DivModUnique(n, 2, p * (k / 2), 0);
    }
  }

  /** Dividing n by the radix found keeps what was ruled out, and takes out every factor 2 once a 2 is found. */
  lemma ReducedQuotient(n: nat, p: nat)
    requires p >= 2 && Candidate(p) && Reduced(n, p) && n % p == 0
    ensures Reduced(n / p, p)
    ensures p == 2 ==> (n / p) % 2 != 0
  {
    var k := n / p;
    if p == 2 {
      HalfOfTwiceOdd(n);
    }
    if p % 2 == 1 {
      QuotientOfOdd(n, p);
      DivExact(n, p);
      assert k > 0;
      MulMod(k, p);
      assert Divides(k, n);
      forall d | 3 <= d < p
        ensures !Divides(d, k)
      {
        if Divides(d, k) {
          DividesTrans(d, k, n);
        }
      }
    }
  }

  /** When the next candidate squared exceeds n, n itself is a candidate no earlier than p. */
  lemma CappedRadix(n: nat, p: nat)
    requires n >= 2 && p >= 2 && Candidate(p) && n % p != 0
    requires var q := NextCandidate(p); q * q > n && Reduced(n, q)
    ensures Candidate(n) && Rank(p) <= Rank(n)
  {
    if p != 4 {
      assert n % 2 != 0;
      assert n >= p by {
        if n < p {
          assert Divides(n, n);
        }
      }
    }
  }

  /** How the radix r found from candidate p with n left fits the candidate order. */
  ghost predicate InOrder(n: nat, p: nat, r: nat) {
    && r >= 2 && Candidate(r) && Rank(p) <= Rank(r)
    && (r == n || Reduced(n, r))
  }

  lemma InOrderCapped(n: nat, p: nat)
    requires n >= 2 && p >= 2 && Candidate(p) && n % p != 0
    requires var q := NextCandidate(p); q * q > n && Reduced(n, q)
    ensures InOrder(n, p, n)
  {
    CappedRadix(n, p);
  }

  lemma InOrderLater(n: nat, p: nat, r: nat)
    requires InOrder(n, NextCandidate(p), r)
    ensures InOrder(n, p, r)
  {
  }

  /** The radix the search settles on is a candidate no earlier than p in the candidate order. */
  lemma {:induction false} FindRadixOrder(n: nat, p: nat)
    requires n >= 2 && p >= 2 && Candidate(p) && Reduced(n, p)
    ensures InOrder(n, p, FindRadix(n, p))
    decreases if p == n then 0 else 1, SearchMeasure(n, p), 2
  {
    if n % p != 0 {
      var q := NextCandidate(p);
      if q * q > n {
        SearchCappedOrder(n, p);
      } else {
        SearchNextOrder(n, p);
      }
    }
  }

  /** The search moves past a candidate that does not divide n to the next one. */
  lemma {:induction false} SearchNextOrder(n: nat, p: nat)
    requires n >= 2 && p >= 2 && Candidate(p) && Reduced(n, p) && n % p != 0
    requires NextCandidate(p) * NextCandidate(p) <= n
    ensures InOrder(n, p, FindRadix(n, p))
    decreases if p == n then 0 else 1, SearchMeasure(n, p), 1
  {
    var q := NextCandidate(p);
    NextCandidateFacts(p);
    SearchStep(n, p);
    ReducedStep(n, p);
    FindRadixOrder(n, q);
    InOrderLater(n, p, FindRadix(n, q));
  }

  lemma SearchCappedOrder(n: nat, p: nat)
    requires n >= 2 && p >= 2 && Candidate(p) && Reduced(n, p) && n % p != 0
    requires NextCandidate(p) * NextCandidate(p) > n
    ensures InOrder(n, p, FindRadix(n, p))
  {
    ReducedStep(n, p);
    assert FindRadix(n, p) == FindRadix(n, n) == n;
    InOrderCapped(n, p);
  }

  lemma {:induction false} StagesOrder(n: nat, p: nat)
    requires n >= 2 && p >= 2 && Candidate(p) && Reduced(n, p)
    ensures var st := Stages(n, p);
            && (forall i :: 0 <= i < |st| ==> st[i].radix >= 2 && Candidate(st[i].radix) && Rank(p) <= Rank(st[i].radix))
            && (forall i, j :: 0 <= i <= j < |st| ==> Rank(st[i].radix) <= Rank(st[j].radix))
            && (forall i, j :: 0 <= i < j < |st| && st[i].radix == 2 ==> st[j].radix % 2 == 1)
    decreases n
  {
    var r := FindRadix(n, p);
    var st := Stages(n, p);
    StagesUnfold(n, p);
    FindRadixOrder(n, p);
    if n / r > 1 {
      assert r != n by { DivModUnique(n, n, 1, 0); }
      ReducedQuotient(n, r);
      DivShrinks(n, r);
      var rest := Stages(n / r, r);
      StagesOrder(n / r, r);
      assert forall i :: 1 <= i < |st| ==> st[i] == rest[i - 1];
      if r == 2 {
        StagesUnfold(n / r, r);
        assert rest[0].radix != 2;
        assert forall j :: 0 <= j < |rest| ==> Rank(rest[0].radix) <= Rank(rest[j].radix);
      }
    }
  }

  /**
    * The radices follow the candidate order: every radix is 4, 2 or odd,
    * all 4s come before everything else, there is at most one 2, and the
    * odd radices come last in non-decreasing order.
    */
  lemma PlanOrder(nfft: nat)
    requires nfft >= 2
    ensures var st := Plan(nfft);
            && (forall i :: 0 <= i < |st| ==> Candidate(st[i].radix))
            && (forall i, j :: 0 <= i < j < |st| && st[j].radix == 4 ==> st[i].radix == 4)
            && (forall i, j :: 0 <= i < j < |st| && st[i].radix % 2 == 1 ==> st[j].radix % 2 == 1 && st[i].radix <= st[j].radix)
            && (forall i, j :: 0 <= i < |st| && 0 <= j < |st| && st[i].radix == 2 && st[j].radix == 2 ==> i == j)
  {
    var st := Plan(nfft);
    StagesOrder(nfft, 4);
    assert st == Stages(nfft, 4);
  }

  /**
    * Any radix above 5, which needs the generic butterfly and its scratch
    * buffer, is at most the last radix, the one the scratch buffer is sized by.
    */
  lemma PlanScratchFits(nfft: nat)
    requires nfft >= 2
    ensures var st := Plan(nfft);
            forall i :: 0 <= i < |st| && st[i].radix > 5 ==> st[i].radix <= st[|st| - 1].radix
  {
    StagesOrder(nfft, 4);
    assert Plan(nfft) == Stages(nfft, 4);
  }
}
