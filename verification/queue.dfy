/** QueueProvider: a dispatch queue wrapped with a flag that keeps suspend and resume calls balanced. */
module QueueProvider {

  /**
   * The flag and the number of `suspend()` and `resume()` calls made so far on the underlying
   * dispatch queue (`name` is the queue's label).
   */
  datatype Queue = Queue(name: string, isSuspended: bool, suspendCalls: nat, resumeCalls: nat)

  /** The underlying queue has been suspended exactly once more than resumed while flagged, and as often otherwise. */
  predicate Balanced(q: Queue) {
    q.suspendCalls - q.resumeCalls == if q.isSuspended then 1 else 0
  }

  /** `init(label:)`: a fresh queue is running. */
  function New(name: string): (q: Queue)
    ensures !q.isSuspended && q.name == name
    ensures Balanced(q)
  {
    Queue(name, false, 0, 0)
  }

  /** `suspend()`: suspends the underlying queue only when not already suspended. */
  function Suspend(q: Queue): (r: Queue)
    ensures r.isSuspended
    ensures q.isSuspended ==> r == q
    ensures r.name == q.name && r.resumeCalls == q.resumeCalls
    ensures r.suspendCalls == q.suspendCalls + (if q.isSuspended then 0 else 1)
    ensures Balanced(q) ==> Balanced(r)
  {
    if !q.isSuspended then q.(suspendCalls := q.suspendCalls + 1, isSuspended := true) else q
  }

  /** `resume()`: resumes the underlying queue only when suspended. */
  function Resume(q: Queue): (r: Queue)
    ensures !r.isSuspended
    ensures !q.isSuspended ==> r == q
    ensures r.name == q.name && r.suspendCalls == q.suspendCalls
    ensures r.resumeCalls == q.resumeCalls + (if q.isSuspended then 1 else 0)
    ensures Balanced(q) ==> Balanced(r)
  {
    if q.isSuspended then q.(resumeCalls := q.resumeCalls + 1, isSuspended := false) else q
  }

  /** Suspending twice is suspending once; likewise for resuming. */
  lemma Idempotent(q: Queue)
    ensures Suspend(Suspend(q)) == Suspend(q)
    ensures Resume(Resume(q)) == Resume(q)
  {
  }

  /** What one dequeued `execute` block does. */
  datatype Step = Step(ranAction: bool, reenqueued: bool)

  /** One `execute` block: skipped entirely while suspended; otherwise runs the action and re-enqueues itself only when iterating. */
  function Execute(q: Queue, iterate: bool): (s: Step)
    ensures s.ranAction <==> !q.isSuspended
    ensures s.reenqueued <==> !q.isSuspended && iterate
  {
    if q.isSuspended then Step(false, false) else Step(true, iterate)
  }

  /** A caller's call: `true` for `suspend()`, `false` for `resume()`. */
  function Run(q: Queue, calls: seq<bool>): Queue
    decreases |calls|
  {
    if |calls| == 0 then q
    else Run(if calls[0] then Suspend(q) else Resume(q), calls[1..])
  }

  /** From a fresh queue, any sequence of calls keeps the underlying queue balanced. */
  lemma {:induction false} RunBalanced(q: Queue, calls: seq<bool>)
    requires Balanced(q)
    ensures Balanced(Run(q, calls))
    ensures Run(q, calls).suspendCalls >= Run(q, calls).resumeCalls
    decreases |calls|
  {
    if |calls| > 0 {
      RunBalanced(if calls[0] then Suspend(q) else Resume(q), calls[1..]);
    }
  }

  /**
   * The block that runs after a sequence of calls is decided by the last call alone: the action runs
   * exactly when that call was `resume()`, whatever came before it.
   */
  lemma {:induction false} ExecuteFollowsLastCall(q: Queue, calls: seq<bool>, iterate: bool)
    requires |calls| > 0
    ensures Execute(Run(q, calls), iterate).ranAction <==> !calls[|calls| - 1]
    ensures Execute(Run(q, calls), iterate).reenqueued <==> !calls[|calls| - 1] && iterate
    decreases |calls|
  {
    var next := if calls[0] then Suspend(q) else Resume(q);
    if |calls| > 1 {
      ExecuteFollowsLastCall(next, calls[1..], iterate);
      assert calls[1..][|calls[1..]| - 1] == calls[|calls| - 1];
    }
  }
}
