/** The unary primality test of is_prime.ts: a number is written as that many
    ones and tested against ^1?$|^(11+?)\1+$; it is prime when the pattern
    does not match. The pattern is modelled by what it accepts, with the
    lazy group tried shortest first, as a backtracking engine does. */
module Prime {
  import opened Wrappers

  /** "1".repeat(n). */
  function Ones(n: nat): (s: string)
    ensures |s| == n
    ensures forall i :: 0 <= i < n ==> s[i] == '1'
  {
    if n == 0 then "" else "1" + Ones(n - 1)
  }

  predicate AllOnes(s: string) {
    forall i :: 0 <= i < |s| ==> s[i] == '1'
  }

  /** `t` is one or more back-to-back copies of `g`: what \1+ accepts once
      the group has captured `g`. */
  predicate Copies(t: string, g: string)
    requires |g| > 0
    decreases |t|
  {
    t == g || (|t| > |g| && t[..|g|] == g && Copies(t[|g|..], g))
  }

  /** The second alternative with the group holding the first `k` characters:
      11+? takes two or more ones, and the rest of the input is copies of them. */
  predicate GroupAt(s: string, k: nat) {
    2 <= k <= |s| && AllOnes(s[..k]) && Copies(s[k..], s[..k])
  }

  /** The lazy group's backtracking: group lengths k, k+1, ... are tried in
      turn and the first that lets the rest match wins. */
  function Lazy(s: string, k: nat): (r: Option<nat>)
    decreases |s| - k
    ensures r.Some? ==> k <= r.value && GroupAt(s, r.value)
    ensures r.Some? ==> forall j :: k <= j < r.value ==> !GroupAt(s, j)
    ensures r.None? ==> forall j: nat :: k <= j ==> !GroupAt(s, j)
  {
    if k > |s| then None
    else if GroupAt(s, k) then Some(k)
    else Lazy(s, k + 1)
  }

  /** The same alternative with a greedy group, 11+ : lengths are tried from
      `k` down to 2. */
  function Greedy(s: string, k: nat): (r: Option<nat>)
    decreases k
    ensures r.Some? ==> 2 <= r.value <= k && GroupAt(s, r.value)
    ensures r.Some? ==> forall j: nat :: r.value < j <= k ==> !GroupAt(s, j)
    ensures r.None? ==> forall j: nat :: j <= k ==> !GroupAt(s, j)
  {
    if k < 2 then None
    else if GroupAt(s, k) then Some(k)
    else Greedy(s, k - 1)
  }

  /** Whether ^1?$|^(11+?)\1+$ matches `s`. */
  predicate Matches(s: string) {
    s == "" || s == "1" || Lazy(s, 2).Some?
  }

  /** isPrime: the pattern does not match `num` ones. */
  predicate IsPrime(num: nat) {
    !Matches(Ones(num))
  }

  predicate Divides(d: nat, n: nat) {
    d > 0 && n % d == 0
  }

  /** `n` splits as k·m with both factors at least two. */
  predicate Factors(k: nat, m: nat, n: nat) {
    k >= 2 && m >= 2 && k * m == n
  }

  /** `n` is a positive multiple of `k`, counted by repeated subtraction: the
      arithmetic shadow of Copies. */
  predicate MultipleOf(n: nat, k: nat)
    requires k >= 1
    decreases n
  {
    n == k || (n > k && MultipleOf(n - k, k))
  }

  lemma OnesSplit(n: nat, k: nat)
    requires k <= n
    ensures Ones(n)[..k] == Ones(k) && Ones(n)[k..] == Ones(n - k)
  {
  }

  /** `n` ones are copies of `k` ones exactly when `n` is a positive multiple
      of `k`. */
  lemma {:induction false} CopiesOnes(n: nat, k: nat)
    requires k >= 1
    decreases n
    ensures Copies(Ones(n), Ones(k)) <==> MultipleOf(n, k)
  {
    if n > k {
      OnesSplit(n, k);
      CopiesOnes(n - k, k);
    } else if n < k {
      assert |Ones(n)| != |Ones(k)|;
    }
  }

  lemma MulMonotone(k: int, a: int, b: int)
    requires k >= 1 && a > b
    ensures k * a >= k * b + k
  {
    assert k * a == k * b + k * (a - b - 1) + k;
  }

  /** Quotient and remainder are the only pair that rebuilds `n`. */
  lemma DivModUnique(n: int, k: int, q: int, r: int)
    requires k >= 1 && 0 <= r < k && n == k * q + r
    ensures n / k == q && n % k == r
  {
    var q' := n / k;
    if q > q' {
      MulMonotone(k, q, q');
      assert false;
    } else if q < q' {
      MulMonotone(k, q', q);
      assert false;
    }
  }

  lemma ModSub(n: nat, k: nat)
    requires 1 <= k <= n
    ensures (n - k) % k == n % k
  {
    var q, r := (n - k) / k, (n - k) % k;
    DivModUnique(n, k, q + 1, r);
  }

  lemma ModSmall(n: nat, k: nat)
    requires 1 <= k <= n < 2 * k
    ensures n % k == n - k
  {
    DivModUnique(n, k, 1, n - k);
  }

  lemma ModProduct(k: nat, m: nat)
    requires k >= 1
    ensures (k * m) % k == 0
  {
    DivModUnique(k * m, k, m, 0);
  }

  lemma ProductAtLeastDouble(k: nat, m: nat)
    requires m >= 2
    ensures k * m >= 2 * k
  {
    assert k * m == k * (m - 2) + 2 * k;
  }

  lemma QuotientFactor(n: nat, k: nat)
    requires k >= 1 && n % k == 0
    ensures n == k * (n / k)
  {
  }

  /** Repeated subtraction agrees with the remainder. */
  lemma {:induction false} MultipleMod(n: nat, k: nat)
    requires k >= 1
    decreases n
    ensures MultipleOf(n, k) <==> n >= k && n % k == 0
  {
    if n > k {
      MultipleMod(n - k, k);
      ModSub(n, k);
      if n < 2 * k {
        ModSmall(n, k);
      }
    }
  }

  /** On a string of ones, the group can be `k` long exactly when `k` is at
      least two and `n` is a multiple of `k` at least twice as long. */
  lemma GroupAtOnes(n: nat, k: nat)
    ensures GroupAt(Ones(n), k) <==> k >= 2 && n >= 2 * k && n % k == 0
  {
    if 2 <= k <= n {
      OnesSplit(n, k);
      assert AllOnes(Ones(k));
      CopiesOnes(n - k, k);
      MultipleMod(n - k, k);
      ModSub(n, k);
    }
  }

  /** The second alternative matches `n` ones exactly when `n` is a product of
      two factors of at least two. */
  lemma CompositeMatch(n: nat)
    ensures Lazy(Ones(n), 2).Some? <==> exists k, m :: Factors(k, m, n)
  {
    var r := Lazy(Ones(n), 2);
    if r.Some? {
      var k := r.value;
      GroupAtOnes(n, k);
      var m := n / k;
      QuotientFactor(n, k);
      if m == 0 {
      } else if m == 1 {
      }
      assert Factors(k, m, n);
    }
    if exists k: nat, m: nat :: Factors(k, m, n) {
      var k: nat, m: nat :| Factors(k, m, n);
      ModProduct(k, m);
      ProductAtLeastDouble(k, m);
      GroupAtOnes(n, k);
    }
  }

  /** The first alternative matches exactly the inputs zero and one. */
  lemma ShortMatch(n: nat)
    ensures Ones(n) == "" || Ones(n) == "1" <==> n <= 1
  {
    if n == 1 {
      assert Ones(1) == "1";
    }
  }

  /** isPrime decides primality: `n` is at least two and has no divisor
      strictly between one and itself. */
  lemma IsPrimeCorrect(n: nat)
    ensures IsPrime(n) <==> n >= 2 && forall d :: 2 <= d < n ==> !Divides(d, n)
  {
    ShortMatch(n);
    CompositeMatch(n);
    if exists k: nat, m: nat :: Factors(k, m, n) {
      var k: nat, m: nat :| Factors(k, m, n);
      ModProduct(k, m);
      ProductAtLeastDouble(k, m);
      assert 2 <= k < n && Divides(k, n);
    }
    if exists d :: 2 <= d < n && Divides(d, n) {
      var d :| 2 <= d < n && Divides(d, n);
      var m := n / d;
      QuotientFactor(n, d);
      if m == 0 {
      } else if m == 1 {
      }
      assert Factors(d, m, n);
    }
  }

  /** Zero and one are not prime; the composite alternative needs four ones,
      so two and three are prime. */
  lemma SmallCases()
    ensures !IsPrime(0) && !IsPrime(1) && IsPrime(2) && IsPrime(3)
  {
    IsPrimeCorrect(0);
    IsPrimeCorrect(1);
    IsPrimeCorrect(2);
    IsPrimeCorrect(3);
    assert !Divides(2, 3);
  }

  /** The lazy group finds the smallest factor of `n` of at least two. */
  lemma LazyFindsSmallestFactor(n: nat)
    requires Lazy(Ones(n), 2).Some?
    ensures var d := Lazy(Ones(n), 2).value;
      Divides(d, n) && 2 <= d < n && forall j :: 2 <= j < d ==> !Divides(j, n)
  {
    var d := Lazy(Ones(n), 2).value;
    GroupAtOnes(n, d);
    forall j | 2 <= j < d ensures !Divides(j, n) {
      GroupAtOnes(n, j);
    }
  }

  /** Laziness decides only which group length is found, not whether the
      pattern matches: a greedy group matches the same strings. */
  lemma LazinessIrrelevant(s: string)
    ensures Lazy(s, 2).Some? <==> Greedy(s, |s|).Some?
  {
    var l, g := Lazy(s, 2), Greedy(s, |s|);
    if l.Some? {
      assert l.value <= |s|;
    }
    if g.Some? {
      assert 2 <= g.value;
    }
  }
}
