/**
 * The prize draw. A click on the start button runs a guard, picks the winner
 * and fills the slot-machine animation; a timer callback two seconds later
 * publishes the winner, records it and, unless repeats are allowed, removes it
 * from the remaining pool. The two halves are `BeginDraw` and `CompleteDraw`.
 */
module LuckyDraw {
  import opened Types

  /** The number of random names the animation shows before the winner. */
  const AnimationLength: nat := 40

  /** `Math.floor(r * n)`, where `r` is a value of `Math.random()`. */
  function PickIndex(r: real, n: nat): (i: nat)
    requires 0.0 <= r < 1.0 && n > 0
    ensures i < n
  {
    assert 0.0 <= r * (n as real) < n as real by {
      assert (1.0 - r) * (n as real) > 0.0;
    }
    (r * (n as real)).Floor
  }

  /** Random values as `Math.random()` produces them, in `[0, 1)`. */
  predicate RandomValues(rs: seq<real>) {
    forall k :: 0 <= k < |rs| ==> 0.0 <= rs[k] < 1.0
  }

  /** The names the animation cycles through, one per random value. */
  function AnimationNames(pool: seq<Participant>, spins: seq<real>): (r: seq<string>)
    requires pool != [] && RandomValues(spins)
    ensures |r| == |spins|
    ensures forall k :: 0 <= k < |r| ==> r[k] in Names(pool)
  {
    seq(|spins|, k requires 0 <= k < |spins| => pool[PickIndex(spins[k], |pool|)].name)
  }

  /** `pool.filter(p => p.id !== id)`. */
  function Without(pool: seq<Participant>, id: string): (r: seq<Participant>)
    ensures IsSubsequence(r, pool)
    ensures forall p :: p in r <==> p in pool && p.id != id
    ensures forall p :: multiset(r)[p] == if p.id != id then multiset(pool)[p] else 0
  {
    if pool == [] then []
    else
      var rest := Without(pool[1..], id);
      assert pool == [pool[0]] + pool[1..];
      if pool[0].id == id then rest else [pool[0]] + rest
  }

  /** With unique ids, removing the id of a pool member removes exactly one entry. */
  lemma {:induction false} WithoutShrinksByOne(pool: seq<Participant>, w: Participant)
    requires UniqueIds(pool) && w in pool
    ensures |Without(pool, w.id)| == |pool| - 1
  {
    if pool[0].id == w.id {
      assert Without(pool[1..], w.id) == pool[1..] by {
        WithoutAbsent(pool[1..], w.id);
      }
    } else {
      assert w in pool[1..];
      WithoutShrinksByOne(pool[1..], w);
    }
  }

  /** Removing an id that no entry has changes nothing. */
  lemma {:induction false} WithoutAbsent(pool: seq<Participant>, id: string)
    requires forall k :: 0 <= k < |pool| ==> pool[k].id != id
    ensures Without(pool, id) == pool
  {
    if pool != [] {
      WithoutAbsent(pool[1..], id);
    }
  }

  /** A pending timer callback: the winner and the repeat setting it captured. */
  datatype Pending = Pending(finalWinner: Participant, allowRepeat: bool)

  /** What a click on the start button did. */
  datatype DrawOutcome =
    | Ignored    // a draw is already running
    | EmptyPool  // nobody left to draw: the alert is shown
    | Started    // the animation runs and the timer is set

  /** The state of the draw panel. */
  class DrawEngine {
    var participants: seq<Participant>
    var isDrawing: bool
    var winner: Option<Participant>
    var displayNames: seq<string>
    var allowRepeat: bool
    var history: seq<Participant>
    var availableList: seq<Participant>
    /** The timer callback scheduled by the running draw, if any. */
    var pending: Option<Pending>
    /** How many times the confetti effect has been fired. */
    var celebrations: nat

    /** The remaining pool only ever loses entries; a timer is pending exactly while drawing. */
    ghost predicate Valid()
      reads this
    {
      IsSubsequence(availableList, participants) && (isDrawing <==> pending.Some?)
    }

    constructor (participants: seq<Participant>)
      ensures Valid()
      ensures this.participants == participants && availableList == participants
      ensures !isDrawing && winner == None && displayNames == [] && !allowRepeat
      ensures history == [] && pending == None && celebrations == 0
    {
      this.participants := participants;
      isDrawing, winner, displayNames, allowRepeat := false, None, [], false;
      history, availableList, pending, celebrations := [], participants, None, 0;
      SubsequenceRefl(participants);
    }

    /** The list a draw picks from: everybody when repeats are allowed, else those not yet drawn. */
    function Pool(): (pool: seq<Participant>)
      reads this
      requires Valid()
      ensures IsSubsequence(pool, participants)
      ensures allowRepeat ==> pool == participants
      ensures !allowRepeat ==> pool == availableList
    {
      SubsequenceRefl(participants);
      if allowRepeat then participants else availableList
    }

    /**
     * The start button's `disabled` condition. Where the panel is shown the list is
     * non-empty, and then the button is disabled exactly when a click would do nothing.
     */
    function StartDisabled(): (disabled: bool)
      reads this
      requires Valid()
      ensures |participants| > 0 ==> (disabled <==> isDrawing || Pool() == [])
    {
      isDrawing || (|availableList| == 0 && !allowRepeat)
    }

    /** The repeat checkbox. */
    method SetAllowRepeat(b: bool)
      requires Valid()
      modifies this
      ensures Valid() && allowRepeat == b
      ensures participants == old(participants) && isDrawing == old(isDrawing)
      ensures winner == old(winner) && displayNames == old(displayNames)
      ensures history == old(history) && availableList == old(availableList)
      ensures pending == old(pending) && celebrations == old(celebrations)
    {
      allowRepeat := b;
    }

    /**
     * The click on the start button. `spins` are the forty random values of the
     * animation and `pick` the one that chooses the winner.
     */
    method BeginDraw(spins: seq<real>, pick: real) returns (outcome: DrawOutcome)
      requires Valid()
      requires |spins| == AnimationLength && RandomValues(spins) && 0.0 <= pick < 1.0
      modifies this
      ensures Valid()
      ensures old(isDrawing) ==> outcome == Ignored && unchanged(this)
      ensures !old(isDrawing) && old(Pool()) == [] ==> outcome == EmptyPool && unchanged(this)
      ensures !old(isDrawing) && old(Pool()) != [] ==>
        && outcome == Started && isDrawing && winner == None
        && pending == Some(Pending(old(Pool())[PickIndex(pick, |old(Pool())|)], old(allowRepeat)))
        && displayNames == AnimationNames(old(Pool()), spins) + [pending.value.finalWinner.name]
      ensures outcome == Started ==>
        && pending.Some? && pending.value.finalWinner in old(Pool())
        && |displayNames| == AnimationLength + 1
        && (forall k :: 0 <= k < |displayNames| ==> displayNames[k] in Names(old(Pool())))
        && displayNames[AnimationLength] == pending.value.finalWinner.name
      ensures participants == old(participants) && allowRepeat == old(allowRepeat)
      ensures history == old(history) && availableList == old(availableList)
      ensures celebrations == old(celebrations)
    {
      if isDrawing {
        return Ignored;
      }
      var pool := Pool();
      if |pool| == 0 {
        return EmptyPool;
      }
      isDrawing := true;
      winner := None;
      var animationNames := AnimationNames(pool, spins);
      var finalWinner := pool[PickIndex(pick, |pool|)];
      assert finalWinner.name in Names(pool);
      displayNames := animationNames + [finalWinner.name];
      pending := Some(Pending(finalWinner, allowRepeat));
      outcome := Started;
    }

    /**
     * The timer callback of a running draw: publishes the winner, puts it at the
     * front of the history, drops its id from the pool unless repeats were allowed
     * when the draw began, and fires the confetti.
     */
    method CompleteDraw()
      requires Valid() && isDrawing
      modifies this
      ensures Valid() && !isDrawing && pending == None
      ensures winner == Some(old(pending.value.finalWinner))
      ensures history == [old(pending.value.finalWinner)] + old(history)
      ensures availableList == if old(pending.value.allowRepeat) then old(availableList)
                               else Without(old(availableList), old(pending.value.finalWinner.id))
      ensures celebrations == old(celebrations) + 1
      ensures participants == old(participants) && allowRepeat == old(allowRepeat)
      ensures displayNames == old(displayNames)
    {
      var job := pending.value;
      isDrawing := false;
      winner := Some(job.finalWinner);
      history := [job.finalWinner] + history;
      if !job.allowRepeat {
        SubsequenceTrans(Without(availableList, job.finalWinner.id), availableList, participants);
        availableList := Without(availableList, job.finalWinner.id);
      }
      pending := None;
      celebrations := celebrations + 1;
    }

    /** The state right after a reset. */
    predicate IsReset()
      reads this
    {
      availableList == participants && history == [] && winner == None && displayNames == []
    }

    /** The reset button. Resetting a reset panel changes nothing, so two resets equal one. */
    method Reset()
      requires Valid()
      modifies this
      ensures Valid() && IsReset()
      ensures old(IsReset()) ==> unchanged(this)
      ensures participants == old(participants) && allowRepeat == old(allowRepeat)
      ensures isDrawing == old(isDrawing) && pending == old(pending)
      ensures celebrations == old(celebrations)
    {
      availableList := participants;
      history := [];
      winner := None;
      displayNames := [];
      SubsequenceRefl(participants);
    }

    /** The effect that runs when the participant list changes: a reset that keeps the animation names. */
    method OnParticipantsChanged(newList: seq<Participant>)
      requires Valid()
      modifies this
      ensures Valid()
      ensures participants == newList && availableList == newList
      ensures history == [] && winner == None
      ensures displayNames == old(displayNames) && allowRepeat == old(allowRepeat)
      ensures isDrawing == old(isDrawing) && pending == old(pending)
      ensures celebrations == old(celebrations)
    {
      participants := newList;
      availableList := newList;
      history := [];
      winner := None;
      SubsequenceRefl(newList);
    }
  }

  /**
   * Two participants, no repeats: two draws take both of them and a third
   * finds the pool empty.
   */
  method DrawUntilEmpty(a: Participant, b: Participant)
    returns (first: Participant, second: Participant, third: DrawOutcome)
    requires a.id != b.id
    ensures first == a && second == b
    ensures third == EmptyPool
  {
    var engine := new DrawEngine([a, b]);
    var zeros := seq(AnimationLength, _ => 0.0);
    var o := engine.BeginDraw(zeros, 0.0);
    engine.CompleteDraw();
    first := engine.winner.value;
    assert engine.availableList == [b] by {
      assert Without([b], a.id) == [b];
    }
    o := engine.BeginDraw(zeros, 0.0);
    engine.CompleteDraw();
    second := engine.winner.value;
    assert engine.availableList == [];
    third := engine.BeginDraw(zeros, 0.0);
  }
}
