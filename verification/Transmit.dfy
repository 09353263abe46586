/** The software copy of the transmit FIFO vacancy: libraries/platforms/aws-fpga/bsg_manycore_platform.cpp

The FIFO takes words; the host sends packets of `WORDS` words and keeps a count of the packets that still fit. It reads
the vacancy register only when that count is zero. The hardware drains words at any time.
*/
module Transmit {

  const WORDS: nat := 4

  type Word = w: int | 0 <= w < 0x1_0000_0000

  datatype Event = Drain(words: nat) | Poll | Start | Write

  // `vacancy` is the register (free words); `sending` counts the words of the current packet still to be written.
  datatype State = State(capacity: nat, vacancy: nat, softVacancy: nat, sending: nat)

  // What the host and the hardware can do next
  predicate Enabled(s: State, e: Event) {
    match e
    case Drain(n) => s.vacancy + n <= s.capacity
    case Poll => s.softVacancy == 0 && s.sending == 0
    case Start => s.softVacancy > 0 && s.sending == 0
    case Write => s.sending > 0
  }

  // A poll that sees part of a packet drained reports failure and leaves the count alone.
  function PolledVacancy(vacancy: nat, soft: nat): nat {
    if vacancy % WORDS != 0 then soft else vacancy / WORDS
  }

  // A write to a full FIFO is lost; `Overflows` marks it.
  function Step(s: State, e: Event): State {
    match e
    case Drain(n) => s.(vacancy := s.vacancy + n)
    case Poll => s.(softVacancy := PolledVacancy(s.vacancy, s.softVacancy))
    case Start => if s.softVacancy > 0 then s.(softVacancy := s.softVacancy - 1, sending := WORDS) else s
    case Write => if s.vacancy > 0 && s.sending > 0 then s.(vacancy := s.vacancy - 1, sending := s.sending - 1) else s
  }

  predicate Overflows(s: State, e: Event) { e.Write? && s.vacancy == 0 }

  // The counted packets and the rest of the current one all fit.
  predicate Safe(s: State) {
    s.softVacancy * WORDS + s.sending <= s.vacancy <= s.capacity
  }

  function Run(s: State, es: seq<Event>): State {
    if es == [] then s else Step(Run(s, es[..|es| - 1]), es[|es| - 1])
  }

  // Every event is possible when it happens.
  predicate Schedule(s: State, es: seq<Event>) {
    es == [] || (Schedule(s, es[..|es| - 1]) && Enabled(Run(s, es[..|es| - 1]), es[|es| - 1]))
  }

  /** After any interleaving of polls, sends and drains, drains of part of a packet included, the software vacancy in
  whole packets is covered by the real one, and no word was written to a full FIFO on the way. */
  lemma {:induction false} NeverOverflows(s: State, es: seq<Event>)
    requires s.vacancy <= s.capacity && s.sending == 0 && s.softVacancy == 0
    requires Schedule(s, es)
    ensures Safe(Run(s, es))
    ensures forall i :: 0 <= i < |es| ==> !Overflows(Run(s, es[..i]), es[i])
  {
    if es == [] {
    } else {
      var n := |es| - 1;
      NeverOverflows(s, es[..n]);
      forall i | 0 <= i < |es|
        ensures !Overflows(Run(s, es[..i]), es[i])
      {
        if i < n {
          assert es[..n][..i] == es[..i] && es[..n][i] == es[i];
          assert !Overflows(Run(s, es[..n][..i]), es[..n][i]);
        }
      }
    }
  }

  // One more event
  lemma {:induction false} Extended(s: State, es: seq<Event>, e: Event)
    requires Schedule(s, es) && Enabled(Run(s, es), e)
    ensures Schedule(s, es + [e]) && Run(s, es + [e]) == Step(Run(s, es), e)
  {
    assert (es + [e])[..|es|] == es;
  }

  // A packet is begun.
  lemma {:induction false} Begun(s: State, es: seq<Event>)
    requires Schedule(s, es) && Run(s, es).softVacancy > 0 && Run(s, es).sending == 0
    ensures Schedule(s, es + [Start])
    ensures Run(s, es + [Start]) == Run(s, es).(softVacancy := Run(s, es).softVacancy - 1, sending := WORDS)
  {
    Extended(s, es, Start);
  }

  // -------------------- the transmit loop --------------------

  /** The platform object, and the hardware behind it: `drains` says how many words the hardware is going to take out
  before each access of the host. `entered` is what went into the FIFO. */
  class Platform {
    const capacity: nat
    var transmitVacancy: nat
    // hardware
    var vacancy: nat
    var drains: seq<nat>
    ghost var entered: seq<Word>
    // what has happened since `start`
    ghost const start: State
    ghost var events: seq<Event>

    constructor (capacity: nat, vacancy: nat, drains: seq<nat>)
      requires vacancy <= capacity
      ensures Valid() && transmitVacancy == 0 && this.vacancy == vacancy && this.drains == drains && entered == []
    {
      this.capacity, this.vacancy, this.drains, transmitVacancy := capacity, vacancy, drains, 0;
      entered, events := [], [];
      start := State(capacity, vacancy, 0, 0);
    }

    // The events are a schedule, which has led here, with `sending` words of a packet still to be written.
    ghost predicate Follows(sending: nat)
      reads this
    {
      && start.vacancy <= start.capacity && start.sending == 0 && start.softVacancy == 0
      && Schedule(start, events) && Run(start, events) == State(capacity, vacancy, transmitVacancy, sending)
    }

    ghost predicate Valid()
      reads this
    {
      Follows(0)
    }

    // The hardware runs for a while.
    method Tick(ghost sending: nat)
      requires Follows(sending)
      modifies this`vacancy, this`drains, this`events
      ensures Follows(sending) && old(events) <= events
      ensures old(vacancy) <= vacancy <= capacity
      ensures |drains| <= |old(drains)| && (old(drains) != [] ==> drains == old(drains)[1..])
    {
      NeverOverflows(start, events);
      if drains != [] {
        var n := if vacancy + drains[0] <= capacity then drains[0] else capacity - vacancy;
        Extended(start, events, Drain(n));
        vacancy, drains, events := vacancy + n, drains[1..], events + [Drain(n)];
      }
    }

    // `hb_mc_platform_get_transmit_vacancy`
    method GetTransmitVacancy() returns (ok: bool)
      requires Valid() && transmitVacancy == 0
      modifies this`transmitVacancy, this`events
      ensures Valid() && old(events) <= events
      ensures ok <==> vacancy % 4 == 0
      ensures transmitVacancy == if ok then vacancy / 4 else old(transmitVacancy)
    {
      Extended(start, events, Poll);
      events := events + [Poll];
      if vacancy % WORDS != 0 {
        return false;
      }
      transmitVacancy := vacancy / WORDS;
      return true;
    }

    // A word that is written to a full FIFO is lost.
    method WriteWord(word: Word, ghost sending: nat)
      requires Follows(sending) && sending > 0
      modifies this`vacancy, this`entered, this`events
      ensures Follows(sending - 1) && old(events) <= events
      ensures entered == old(entered) + [word]
    {
      NeverOverflows(start, events);
      Extended(start, events, Write);
      events := events + [Write];
      if vacancy > 0 {
        vacancy, entered := vacancy - 1, entered + [word];
      }
    }

    /** `hb_mc_platform_transmit`: when it returns, all words of the packet have entered the FIFO, in order and without any
    lost, and nothing else has. `sent` is false when the hardware is never seen to have room again, where the source keeps
    polling. */
    method TransmitPacket(packet: seq<Word>) returns (sent: bool)
      requires Valid() && |packet| == 4
      modifies this
      ensures Valid() && old(events) <= events
      ensures entered == if sent then old(entered) + packet else old(entered)
      ensures old(transmitVacancy) > 0 ==> sent && transmitVacancy == old(transmitVacancy) - 1
      ensures !sent ==> transmitVacancy == 0 && drains == []
    {
      hide Schedule, Run;
      while transmitVacancy == 0
        invariant Valid() && old(events) <= events && entered == old(entered)
        invariant old(transmitVacancy) > 0 ==> transmitVacancy == old(transmitVacancy)
        decreases |drains|
      {
        if drains == [] {
          return false;
        }
        Tick(0);
        var ok := GetTransmitVacancy();  // the source ignores the result
      }
      Begun(start, events);
      events := events + [Start];
      transmitVacancy := transmitVacancy - 1;
      var i := 0;
      while i < WORDS
        invariant 0 <= i <= WORDS
        invariant Follows(WORDS - i) && old(events) <= events && entered == old(entered) + packet[..i]
        invariant old(transmitVacancy) > 0 ==> transmitVacancy == old(transmitVacancy) - 1
      {
        Tick(WORDS - i);
        WriteWord(packet[i], WORDS - i);
        i := i + 1;
      }
      assert packet[..i] == packet;
      return true;
    }
  }
}
