/** `allocate_app_token` of compositor-policy/cardputerzero-policy.c: the next counter value no watch holds. */
module AppTokens {
  import opened Common

  /** Number of usable tokens: every 32-bit value but zero. */
  const TOKENS: nat := UINT32_SIZE - 1

  /** `next_app_token++` on 32 bits, skipping zero. */
  function Successor(token: nat): (r: nat)
    requires token <= TOKENS
    ensures 1 <= r <= TOKENS
  {
    if token == TOKENS then 1 else token + 1
  }

  /** The first successor of `token` outside `used`. */
  function Allocate(token: nat, used: set<nat>): (r: nat)
    requires token <= TOKENS
    ensures 1 <= r <= TOKENS
    decreases |used|
  {
    var next := Successor(token);
    if next in used then Allocate(next, used - {next}) else next
  }

  /** The value the counter has after `k` steps from `token`. */
  function Nth(token: nat, k: nat): (r: nat)
    requires token <= TOKENS && k >= 1
    ensures 1 <= r <= TOKENS
  {
    (token + k - 1) % TOKENS + 1
  }

  lemma NthOfSuccessor(token: nat, k: nat)
    requires token <= TOKENS && k >= 1
    ensures Nth(token, 1) == Successor(token)
    ensures Nth(Successor(token), k) == Nth(token, k + 1)
  {
    if token == TOKENS {
      assert (TOKENS + k) % TOKENS == k % TOKENS;
    }
  }

  /** The counter visits every token once before it repeats. */
  lemma NthDistinct(token: nat, i: nat, j: nat)
    requires token <= TOKENS && 1 <= i && 1 <= j && Nth(token, i) == Nth(token, j)
    requires i - j < TOKENS && j - i < TOKENS
    ensures i == j
  {
    var a, b := token + i - 1, token + j - 1;
    assert a == a / TOKENS * TOKENS + a % TOKENS && b == b / TOKENS * TOKENS + b % TOKENS;
    assert a - b == (a / TOKENS - b / TOKENS) * TOKENS;
  }

  /** The allocation is a step of the counter, taken after at most `|used|` collisions. */
  lemma {:induction false} AllocateIsNth(token: nat, used: set<nat>) returns (k: nat)
    requires token <= TOKENS && |used| < TOKENS
    ensures 1 <= k <= |used| + 1 && Allocate(token, used) == Nth(token, k) && Nth(token, k) !in used
    decreases |used|
  {
    var next := Successor(token);
    NthOfSuccessor(token, 1);
    if next !in used {
      k := 1;
    } else {
      var later := AllocateIsNth(next, used - {next});
      NthOfSuccessor(token, later);
      k := later + 1;
      if Nth(token, k) == next { NthDistinct(token, 1, k); }
    }
  }

  /**
   With fewer than 2^32 - 1 tokens in use the search ends, wrap-around included,
   at a nonzero token that is not in use.
   */
  lemma AllocateFresh(token: nat, used: set<nat>)
    requires token <= TOKENS && |used| < TOKENS
    ensures 1 <= Allocate(token, used) <= TOKENS && Allocate(token, used) !in used
  {
    var k := AllocateIsNth(token, used);
  }

  function ToSet(tokens: seq<nat>): set<nat> { set t | t in tokens }

  lemma {:induction false} ToSetSize(tokens: seq<nat>)
    ensures |ToSet(tokens)| <= |tokens|
    decreases |tokens|
  {
    if tokens != [] {
      var rest := tokens[..|tokens| - 1];
      ToSetSize(rest);
      assert ToSet(tokens) == ToSet(rest) + {tokens[|tokens| - 1]};
    }
  }

  function Visited(token: nat, k: nat): (r: set<nat>)
    requires token <= TOKENS
  {
    set j | 1 <= j <= k :: Nth(token, j)
  }

  /** The scan of the watch list. */
  method IsHeld(tokens: seq<nat>, token: nat) returns (collision: bool)
    ensures collision <==> token in tokens
  {
    collision := false;
    for i := 0 to |tokens|
      invariant token !in tokens[..i]
    {
      if tokens[i] == token { return true; }
    }
  }

  /** The search stands at `next` after `k` collisions; `left` are the tokens in use it has not met. */
  ghost predicate Searching(counter: nat, used: set<nat>, next: nat, left: set<nat>, k: nat) {
    && counter <= TOKENS && next <= TOKENS && k <= |used| < TOKENS
    && next == (if k == 0 then counter else Nth(counter, k))
    && left == used - Visited(counter, k) && |left| == |used| - k
    && Allocate(next, left) == Allocate(counter, used)
  }

  lemma SearchStarts(counter: nat, used: set<nat>)
    requires counter <= TOKENS && |used| < TOKENS
    ensures Searching(counter, used, counter, used, 0)
  {
    assert Visited(counter, 0) == {};
  }

  /** A collision brings the search on; without one it is at the allocation. */
  lemma SearchStep(counter: nat, used: set<nat>, at: nat, left: set<nat>, k: nat)
    requires Searching(counter, used, at, left, k)
    ensures var next := Successor(at);
            if next in used then next in left && Searching(counter, used, next, left - {next}, k + 1)
            else next == Allocate(counter, used)
  {
    hide Nth, Visited, Allocate;
    var next, met := Successor(at), Visited(counter, k);
    FollowingNth(counter, k, at);
    NotVisited(counter, k, |used|);
    VisitedGrows(counter, k);
    AllocateStep(at, left);
    if next in used {
      assert used - (met + {next}) == left - {next};
      assert |left - {next}| == |left| - 1;
    }
  }

  lemma FollowingNth(counter: nat, k: nat, at: nat)
    requires counter <= TOKENS && at <= TOKENS && at == if k == 0 then counter else Nth(counter, k)
    ensures Successor(at) == Nth(counter, k + 1)
  {
    if k > 0 {
      NthSuccessor(counter, k);
    } else {
      NthOfSuccessor(counter, 1);
    }
  }

  /** One advance of the counter. */
  lemma AllocateStep(token: nat, used: set<nat>)
    requires token <= TOKENS
    ensures var next := Successor(token);
            Allocate(token, used) == if next in used then Allocate(next, used - {next}) else next
  {
  }

  /** The source's loop: advance the counter, scan the watches, repeat on a collision. */
  method AllocateToken(counter: nat, tokens: seq<nat>) returns (next: nat)
    requires counter <= TOKENS && |tokens| < TOKENS
    ensures next == Allocate(counter, ToSet(tokens))
    ensures 1 <= next <= TOKENS && next !in tokens
  {
    hide Searching, Allocate;
    ghost var used := ToSet(tokens);
    ToSetSize(tokens);
    AllocateFresh(counter, used);
    ghost var left, k := used, 0;
    SearchStarts(counter, used);
    next := counter;
    while true
      invariant next <= TOKENS && Searching(counter, used, next, left, k)
      decreases |left|
    {
      SearchStep(counter, used, next, left, k);
      next := if next == TOKENS then 1 else next + 1;
      var collision := IsHeld(tokens, next);
      if !collision { return; }
      left, k := left - {next}, k + 1;
    }
  }

  lemma VisitedGrows(token: nat, k: nat)
    requires token <= TOKENS
    ensures Visited(token, k + 1) == Visited(token, k) + {Nth(token, k + 1)}
  {
    hide Nth;
  }

  lemma NthSuccessor(token: nat, k: nat)
    requires token <= TOKENS && k >= 1
    ensures Nth(token, k + 1) == Successor(Nth(token, k))
  {
    var a := token + k - 1;
    if a % TOKENS == TOKENS - 1 {
      assert a + 1 == (a / TOKENS + 1) * TOKENS;
      assert (a + 1) % TOKENS == 0;
    } else {
      assert (a + 1) % TOKENS == a % TOKENS + 1;
    }
  }

  lemma NotVisited(token: nat, k: nat, bound: nat)
    requires token <= TOKENS && k <= bound < TOKENS
    ensures Nth(token, k + 1) !in Visited(token, k)
  {
    if Nth(token, k + 1) in Visited(token, k) {
      var j :| 1 <= j <= k && Nth(token, j) == Nth(token, k + 1);
      NthDistinct(token, j, k + 1);
    }
  }
}
