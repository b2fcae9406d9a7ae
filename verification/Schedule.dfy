/** Runs of numbered rounds. */
module Schedule {

  /** Rounds 0 to n-1 in order. */
  function Forward<S(!new)>(f: (nat, S) --> S, x: S, n: nat): S
    requires forall r: nat, s | r < n :: f.requires(r, s)
  {
    if n == 0 then x else f(n - 1, Forward(f, x, n - 1))
  }

  lemma ForwardSeven<S(!new)>(f: (nat, S) --> S, x: S, n: nat)
    requires forall r: nat, s | r < n + 7 :: f.requires(r, s)
    ensures Forward(f, x, n + 7) ==
            f(n + 6, f(n + 5, f(n + 4, f(n + 3, f(n + 2, f(n + 1, f(n, Forward(f, x, n))))))))
  {
    assert Forward(f, x, n + 2) == f(n + 1, f(n, Forward(f, x, n)));
    assert Forward(f, x, n + 4) == f(n + 3, f(n + 2, Forward(f, x, n + 2)));
    assert Forward(f, x, n + 6) == f(n + 5, f(n + 4, Forward(f, x, n + 4)));
  }
}
