// trigger_kernel_consumer_on_exit and the consumer program it triggers, on a real Vyukov queue that
// nobody else uses any more.

module RelayDrain {
  import opened Base
  import opened VyukovQueue

  /** The counters of the kernel consumer, and the pairs it took. */
  class Kernel {
    var ops: nat
    var failures: nat
    var consumed: nat
    ghost var taken: seq<Kv>

    constructor ()
      ensures ops == failures == consumed == 0 && taken == []
    {
      ops, failures, consumed, taken := 0, 0, 0, [];
    }

    /** One trigger: pops a pair if there is a queue and it holds one. */
    method Consume(uk: Queue?)
      requires uk != null ==> uk.Calm()
      modifies this, uk, if uk == null then {} else {uk.buffer}
      ensures uk != null ==> uk.Calm() && uk.buffer == old(uk.buffer)
      ensures ops == old(ops) + 1
      ensures uk != null && old(uk.Pairs()) != [] ==>
                && consumed == old(consumed) + 1 && failures == old(failures)
                && taken == old(taken) + [old(uk.Pairs())[0]] && uk.Pairs() == old(uk.Pairs())[1..]
      ensures uk == null || old(uk.Pairs()) == [] ==>
                && consumed == old(consumed) && failures == old(failures) + 1 && taken == old(taken)
                && (uk != null ==> uk.Pairs() == [])
    {
      if uk == null {
        ops, failures := ops + 1, failures + 1;
        return;
      }
      var r, kv := uk.PopAlone();
      ops := ops + 1;
      if r == Success {
        consumed, taken := consumed + 1, taken + [kv];
      } else {
        failures := failures + 1;
      }
    }

    /** Triggers until the kernel has consumed as many pairs as the relay pushed. It takes exactly that
        many triggers, none of which fails, and leaves the lane empty; a relay that pushed nothing is
        given one trigger, which fails. The bound on attempts is never what ends the loop. */
    method TriggerOnExit(uk: Queue?, pushed: nat) returns (attempts: nat)
      requires uk != null ==> uk.Calm()
      requires pushed == if uk == null then 0 else |uk.Pairs()|
      modifies this, uk, if uk == null then {} else {uk.buffer}
      ensures consumed == old(consumed) + pushed
      ensures attempts == (if pushed == 0 then 1 else pushed) && ops == old(ops) + attempts
      ensures failures == old(failures) + if pushed == 0 then 1 else 0
      ensures uk != null ==> uk.Calm() && uk.Pairs() == [] && taken == old(taken) + old(uk.Pairs())
    {
      var target, maxAttempts := consumed + pushed, pushed + 1024;
      attempts := 0;
      if pushed == 0 {
        Consume(uk);
        return 1;
      }
      while attempts < maxAttempts && consumed < target
        invariant attempts <= pushed && consumed == old(consumed) + attempts
        invariant ops == old(ops) + attempts && failures == old(failures)
        invariant uk.Calm() && uk.buffer == old(uk.buffer)
        invariant uk.Pairs() == old(uk.Pairs())[attempts..]
        invariant taken == old(taken) + old(uk.Pairs())[..attempts]
      {
        Consume(uk);
        attempts := attempts + 1;
      }
    }
  }
}
