/**
 The output sequence of a step: a queue that statements fill and that is emptied onto the bus in order.
 */
module OutputSequences {
  import opened Statements
  import opened Transitions

  /** The number of entries sent before the first signal that cannot be emitted. */
  function SentBefore(q: seq<Output>, emits: nat -> bool, i: nat): (k: nat)
    requires i <= |q|
    ensures i <= k <= |q|
    ensures forall j | i <= j < k :: q[j].EmitOut? ==> emits(j)
    ensures k < |q| ==> q[k].EmitOut? && !emits(k)
    decreases |q| - i
  {
    if i == |q| || (q[i].EmitOut? && !emits(i)) then i else SentBefore(q, emits, i + 1)
  }

  class OutputSequence {
    var queue: seq<Output>

    constructor ()
      ensures queue == []
    {
      queue := [];
    }

    /** dfsm_output_sequence_add_reply(), _add_throw() and _add_emit(). */
    method Add(entry: Output)
      modifies this
      ensures queue == old(queue) + [entry]
    {
      queue := queue + [entry];
    }

    /**
     dfsm_dbus_output_sequence_output(): send entries in order until the queue is empty or a signal cannot
     be emitted; emits says which entries the connection takes. The entry that fails is lost as well.
     */
    method SendAll(emits: nat -> bool) returns (sent: seq<Output>, failed: bool)
      modifies this
      ensures var q := old(queue); var k := SentBefore(q, emits, 0);
        && sent == q[..k]
        && failed == (k < |q|)
        && queue == if failed then q[k + 1..] else []
    {
      sent, failed := [], false;
      ghost var q := queue;
      var i := 0;
      while !failed && queue != []
        invariant 0 <= i <= |q| && (failed ==> i > 0)
        invariant SentBefore(q, emits, 0) == SentBefore(q, emits, if failed then i - 1 else i)
        invariant failed ==> q[i - 1].EmitOut? && !emits(i - 1) && sent == q[..i - 1]
        invariant !failed ==> sent == q[..i]
        invariant queue == q[i..]
        decreases |queue|
      {
        var entry := queue[0];
        queue := queue[1..];
        if entry.EmitOut? && !emits(i) {
          failed := true;
        } else {
          sent := sent + [entry];
        }
        i := i + 1;
      }
    }
  }

  predicate AnswersAt(q: seq<Output>, a: nat) {
    a < |q| && !q[a].EmitOut?
  }

  lemma {:induction false} NoAnswers(q: seq<Output>)
    ensures AnswerCount(q) == 0 <==> forall j | 0 <= j < |q| :: q[j].EmitOut?
  {
    if q != [] { NoAnswers(q[..|q| - 1]); }
  }

  lemma SplitAnswers(q: seq<Output>, k: nat)
    requires k <= |q|
    ensures AnswerCount(q) == AnswerCount(q[..k]) + AnswerCount(q[k..])
  {
    hide AnswerCount;
    assert q == q[..k] + q[k..];
    AnswerCountConcat(q[..k], q[k..]);
  }

  /** What is sent of the output of an answered call answers it just when no earlier signal fails. */
  lemma SentAnswer(q: seq<Output>, emits: nat -> bool, a: nat)
    requires AnswerCount(q) == 1 && AnswersAt(q, a)
    ensures AnswerCount(q[..SentBefore(q, emits, 0)]) ==
      if forall j | 0 <= j < a && q[j].EmitOut? :: emits(j) then 1 else 0
  {
    hide AnswerCount, SentBefore;
    var k := SentBefore(q, emits, 0);
    SplitAnswers(q, k);
    NoAnswers(q[..k]);
    NoAnswers(q[k..]);
    if a < k {
      assert q[..k][a] == q[a];
    } else {
      assert q[k..][a - k] == q[a];
    }
  }
}
