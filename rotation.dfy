/**
 * The user-agent rotator of `FragmentChecker`: a pool of ten agent strings, a
 * round-robin cursor and a request counter. Every twentieth request overwrites
 * one randomly chosen slot with a fresh agent before the agent is read.
 *
 * The random slot (`random.randint`) and the fresh agent (`UserAgent().random`)
 * come from an oracle indexed by the request number the call produces.
 */
module Rotation {
  import Arith

  /** Size of the pool built by the constructor. */
  const PoolSize: nat := 10
  /** A slot is refreshed on requests whose number is a multiple of this. */
  const RefreshPeriod: nat := 20

  type Slot = i: nat | i < PoolSize

  /** What the random sources yield when a refresh is due. */
  datatype Draw = Draw(slot: Slot, agent: string)

  /** The three fields `user_agents`, `current_ua_index` and `request_count`. */
  datatype Rotator = Rotator(pool: seq<string>, cursor: nat, count: nat) {
    predicate Valid() {
      |pool| == PoolSize && cursor < PoolSize
    }
  }

  predicate RefreshDue(count: int) {
    count % RefreshPeriod == 0
  }

  /** A freshly constructed rotator. */
  function Initial(agents: seq<string>): (s: Rotator)
    requires |agents| == PoolSize
    ensures s.Valid() && s.pool == agents && s.cursor == 0 && s.count == 0
  {
    Rotator(agents, 0, 0)
  }

  /**
   * One call of `get_next_user_agent`: the new rotator state and the agent returned.
   * The pool keeps its size, the counter goes up by one, the cursor moves one step
   * round the pool; a slot changes only on a call whose new count is a multiple of
   * twenty, and then only the drawn slot; the agent is the one at the old cursor,
   * read after any refresh.
   */
  function NextAgent(s: Rotator, draw: nat -> Draw): (r: (Rotator, string))
    requires s.Valid()
    ensures r.0.Valid()
    ensures r.0.count == s.count + 1
    ensures r.0.cursor == (s.cursor + 1) % PoolSize
    ensures r.1 == r.0.pool[s.cursor]
    ensures RefreshDue(r.0.count) ==> r.0.pool[draw(r.0.count).slot] == draw(r.0.count).agent
    ensures !RefreshDue(r.0.count) ==> r.0.pool == s.pool
  {
    var count := s.count + 1;
    var pool := if RefreshDue(count) then s.pool[draw(count).slot := draw(count).agent] else s.pool;
    (Rotator(pool, (s.cursor + 1) % PoolSize, count), pool[s.cursor])
  }

  /** One call changes no slot but the drawn one, and that only on a refresh-due call. */
  lemma NextAgentChanges(s: Rotator, draw: nat -> Draw)
    requires s.Valid()
    ensures forall j :: 0 <= j < PoolSize && NextAgent(s, draw).0.pool[j] != s.pool[j] ==>
      RefreshDue(s.count + 1) && j == draw(s.count + 1).slot
  {
  }

  /** The rotator after k successive calls. */
  function Rotate(s: Rotator, k: nat, draw: nat -> Draw): (r: Rotator)
    requires s.Valid()
    ensures r.Valid() && r.count == s.count + k
    decreases k
  {
    if k == 0 then s else Rotate(NextAgent(s, draw).0, k - 1, draw)
  }

  /** The slots drawn on the refresh-due calls among numbers count+1 .. count+k. */
  function RefreshSlots(count: nat, k: nat, draw: nat -> Draw): seq<Slot>
    decreases k
  {
    if k == 0 then []
    else (if RefreshDue(count + 1) then [draw(count + 1).slot] else []) +
         RefreshSlots(count + 1, k - 1, draw)
  }

  /** k calls advance the counter by k and the cursor by k places round the pool. */
  lemma {:induction false} RotateCounters(s: Rotator, k: nat, draw: nat -> Draw)
    requires s.Valid()
    ensures Rotate(s, k, draw).count == s.count + k
    ensures Rotate(s, k, draw).cursor == (s.cursor + k) % PoolSize
    decreases k
  {
    if k > 0 {
      var s1 := NextAgent(s, draw).0;
      RotateCounters(s1, k - 1, draw);
      Arith.ModThenAdd(s.cursor + 1, k - 1, PoolSize);
    }
  }

  /** Over k calls, a slot differs from its starting value only if a refresh-due
      call drew it. */
  lemma {:induction false} RotateChanges(s: Rotator, k: nat, draw: nat -> Draw)
    requires s.Valid()
    ensures forall j :: 0 <= j < PoolSize && Rotate(s, k, draw).pool[j] != s.pool[j] ==>
      j in RefreshSlots(s.count, k, draw)
    decreases k
  {
    if k > 0 {
      RotateChanges(NextAgent(s, draw).0, k - 1, draw);
      NextAgentChanges(s, draw);
    }
  }

  /** Among calls count+1 .. count+k, (count+k)/20 - count/20 are refresh-due. */
  lemma {:induction false} RefreshSlotsCount(count: nat, k: nat, draw: nat -> Draw)
    ensures |RefreshSlots(count, k, draw)| == (count + k) / RefreshPeriod - count / RefreshPeriod
    decreases k
  {
    if k > 0 {
      RefreshSlotsCount(count + 1, k - 1, draw);
      Arith.DivStep(count + 1, RefreshPeriod);
    }
  }

  /** In any run of at most twenty consecutive calls at most one slot of the pool
      changes, and the pool keeps its ten slots. */
  lemma OneSlotPerTwentyCalls(s: Rotator, k: nat, draw: nat -> Draw)
    requires s.Valid() && k <= RefreshPeriod
    ensures |Rotate(s, k, draw).pool| == PoolSize
    ensures forall i, j ::
      (0 <= i < PoolSize && 0 <= j < PoolSize &&
       Rotate(s, k, draw).pool[i] != s.pool[i] &&
       Rotate(s, k, draw).pool[j] != s.pool[j]) ==> i == j
  {
    RotateChanges(s, k, draw);
    RefreshSlotsCount(s.count, k, draw);
    var q, r := s.count / RefreshPeriod, s.count % RefreshPeriod;
    if r + k < RefreshPeriod {
      Arith.DivModUnique(s.count + k, RefreshPeriod, q, r + k);
    } else {
      Arith.DivModUnique(s.count + k, RefreshPeriod, q + 1, r + k - RefreshPeriod);
    }
  }

  /** k calls from a new rotator refresh k / 20 slots (one per pool entry every
      two hundred calls) and leave the cursor at k mod 10. */
  lemma FromNewRotator(agents: seq<string>, k: nat, draw: nat -> Draw)
    requires |agents| == PoolSize
    ensures |RefreshSlots(0, k, draw)| == k / RefreshPeriod
    ensures Rotate(Initial(agents), k, draw).cursor == k % PoolSize
    ensures Rotate(Initial(agents), k, draw).count == k
  {
    RefreshSlotsCount(0, k, draw);
    RotateCounters(Initial(agents), k, draw);
  }
}
