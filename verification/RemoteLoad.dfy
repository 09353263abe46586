/** Remote loads answered out of order: `hb_mc_manycore_read_mem_internal` in libraries/bsg_manycore.cpp */
module RemoteLoad {
  import opened Bits
  import opened Wrappers
  import opened Eva

  /** The network and the endpoints, seen from the host: which loads are outstanding and what may come back.

  An honest network answers every outstanding load once, in any order. Unless it is reliable it may stop being honest,
  and return any value under any load id. It refuses a request finitely often. */
  class Network<V(0)> {
    // what a load from an address returns while the transfer runs
    const load: Npa -> V
    const reliable: bool
    // the answer each outstanding load id will get
    var inflight: map<nat, V>
    // how many more requests will be refused as BUSY
    var refusals: nat
    ghost var honest: bool
    // the largest number of loads that were ever outstanding
    ghost var peak: nat

    constructor (load: Npa -> V, reliable: bool)
      ensures this.load == load && this.reliable == reliable && inflight == map[] && honest && peak == 0
    {
      this.load, this.reliable := load, reliable;
      inflight := map[];
      refusals := *;
      honest := true;
      peak := 0;
    }

    method Send(npa: Npa, id: nat) returns (sent: bool)
      modifies this
      ensures honest == old(honest)
      ensures sent ==> inflight == old(inflight)[id := load(npa)] && refusals == old(refusals)
      ensures sent ==> peak == if |inflight| > old(peak) then |inflight| else old(peak)
      ensures !sent ==> inflight == old(inflight) && refusals < old(refusals) && peak == old(peak)
    {
      sent := *;
      if refusals == 0 {
        sent := true;
      }
      if sent {
        inflight := inflight[id := load(npa)];
        peak := if |inflight| > peak then |inflight| else peak;
      } else {
        refusals := refusals - 1;
      }
    }

    method Receive() returns (value: V, id: nat)
      requires honest ==> inflight != map[]
      modifies this
      ensures refusals == old(refusals) && peak == old(peak)
      ensures honest ==> old(honest) && id in old(inflight) && value == old(inflight)[id]
      ensures honest ==> inflight == old(inflight) - {id}
      ensures reliable && old(honest) ==> honest
    {
      var proper := *;
      if (proper || reliable) && inflight != map[] {
        id :| id in inflight;
        value := inflight[id];
        inflight := inflight - {id};
      } else {
        value, id := *, *;
        honest := false;
      }
    }
  }

  // Every id below the cap is either free (on the stack, once) or in flight.
  ghost predicate Partition<V>(ids: seq<nat>, inflight: map<nat, V>, cap: nat) {
    && (forall i, j :: 0 <= i < j < |ids| ==> ids[i] != ids[j])
    && (forall id :: id in ids ==> id < cap && id !in inflight)
    && (forall id :: id in inflight ==> id < cap)
    && (forall id: nat {:trigger id in ids} :: id < cap ==> id in ids || id in inflight)
  }

  // The slot `slot` may hold `v`: some request of that slot returns it. Slots are request numbers in 32 bits.
  ghost predicate Answers<V>(load: Npa -> V, npa: nat -> Npa, rqst: nat, slot: nat, v: V) {
    exists j: nat :: j < rqst && Wrap(j) == slot && v == load(npa(j))
  }

  // Each id in flight stands for one request, and its answer belongs into the slot of that request.
  ghost predicate Tracks<V>(inflight: map<nat, V>, idToRsp: map<nat, nat>, load: Npa -> V, npa: nat -> Npa, rqst: nat) {
    forall id :: id in inflight ==> id in idToRsp && Answers(load, npa, rqst, idToRsp[id], inflight[id])
  }

  // For the slot of every request sent so far an answer has arrived or is on the way.
  ghost predicate Covered<V>(data: seq<V>, inflight: map<nat, V>, idToRsp: map<nat, nat>, load: Npa -> V, npa: nat -> Npa, rqst: nat) {
    && rqst <= |data|
    && forall s :: 0 <= s < rqst && s < WORD32 ==>
         Answers(load, npa, rqst, s, data[s]) || Pending(inflight, idToRsp, s)
  }

  ghost predicate Pending<V>(inflight: map<nat, V>, idToRsp: map<nat, nat>, slot: nat) {
    exists id :: id in inflight && id in idToRsp && idToRsp[id] == slot
  }

  // What holds of the bookkeeping while the network is honest
  ghost predicate Books<V>(ids: seq<nat>, inflight: map<nat, V>, idToRsp: map<nat, nat>, cap: nat,
                           load: Npa -> V, npa: nat -> Npa, data: seq<V>, rsp: nat, rqst: nat) {
    && Partition(ids, inflight, cap)
    && Tracks(inflight, idToRsp, load, npa, rqst)
    && Covered(data, inflight, idToRsp, load, npa, rqst)
    && rsp <= rqst && |inflight| == rqst - rsp
  }

  lemma {:induction false} InitialBooks<V>(ids: seq<nat>, cap: nat, load: Npa -> V, npa: nat -> Npa, data: seq<V>)
    requires |ids| == cap && forall i :: 0 <= i < cap ==> ids[i] == cap - 1 - i
    ensures Books(ids, map[], map[], cap, load, npa, data, 0, 0)
  {
    forall id: nat | id < cap
      ensures id in ids
    {
      assert ids[cap - 1 - id] == id;
    }
  }

  // Recording a request under a free id before it is sent changes nothing yet, ...
  lemma {:induction false} RecordKeepsBooks<V>(ids: seq<nat>, inflight: map<nat, V>, idToRsp: map<nat, nat>, cap: nat,
                                               load: Npa -> V, npa: nat -> Npa, data: seq<V>, rsp: nat, rqst: nat)
    requires Books(ids, inflight, idToRsp, cap, load, npa, data, rsp, rqst)
    requires |ids| > 0
    ensures Books(ids, inflight, idToRsp[ids[|ids| - 1] := Wrap(rqst)], cap, load, npa, data, rsp, rqst)
  {
    hide Wrap, Answers;
    var id := ids[|ids| - 1];
    assert id in ids;
    var idToRsp' := idToRsp[id := Wrap(rqst)];
    forall s | 0 <= s < rqst && s < WORD32 && !Answers(load, npa, rqst, s, data[s])
      ensures Pending(inflight, idToRsp', s)
    {
      var id' :| id' in inflight && id' in idToRsp && idToRsp[id'] == s;
      assert id' in idToRsp' && idToRsp'[id'] == s;
    }
  }

  // A further request only adds possible answers.
  lemma {:induction false} AnswersGrow<V>(load: Npa -> V, npa: nat -> Npa, rqst: nat, slot: nat, v: V)
    requires Answers(load, npa, rqst, slot, v)
    ensures Answers(load, npa, rqst + 1, slot, v)
  {
    hide Wrap;
  }

  lemma {:induction false} AnswersItself<V>(load: Npa -> V, npa: nat -> Npa, rqst: nat)
    ensures Answers(load, npa, rqst + 1, Wrap(rqst), load(npa(rqst)))
  {
    hide Wrap;
  }

  // ... sending it moves the id from the stack into the network, ...
  lemma {:induction false} SendKeepsBooks<V>(ids: seq<nat>, inflight: map<nat, V>, idToRsp: map<nat, nat>, cap: nat,
                                             load: Npa -> V, npa: nat -> Npa, data: seq<V>, rsp: nat, rqst: nat, id: nat)
    requires Books(ids, inflight, idToRsp, cap, load, npa, data, rsp, rqst)
    requires |ids| > 0 && id == ids[|ids| - 1] && id in idToRsp && idToRsp[id] == Wrap(rqst)
    requires rqst < |data|
    ensures Books(ids[..|ids| - 1], inflight[id := load(npa(rqst))], idToRsp, cap, load, npa, data, rsp, rqst + 1)
  {
    hide Answers, Wrap, Pending;
    PopKeepsPartition(ids, inflight, cap, load(npa(rqst)));
    var inflight' := inflight[id := load(npa(rqst))];
    assert id in ids;
    assert inflight'.Keys == inflight.Keys + {id};
    SendKeepsTracks(inflight, idToRsp, load, npa, rqst, id);
    SendKeepsCovered(data, inflight, idToRsp, load, npa, rqst, id);
  }

  lemma {:induction false} SendKeepsTracks<V>(inflight: map<nat, V>, idToRsp: map<nat, nat>, load: Npa -> V, npa: nat -> Npa,
                                              rqst: nat, id: nat)
    requires Tracks(inflight, idToRsp, load, npa, rqst) && id in idToRsp && idToRsp[id] == Wrap(rqst)
    ensures Tracks(inflight[id := load(npa(rqst))], idToRsp, load, npa, rqst + 1)
  {
    hide Answers, Wrap;
    AnswersItself(load, npa, rqst);
    forall id' | id' in inflight
      ensures id' in idToRsp && Answers(load, npa, rqst + 1, idToRsp[id'], inflight[id'])
    {
      AnswersGrow(load, npa, rqst, idToRsp[id'], inflight[id']);
    }
  }

  lemma {:induction false} SendKeepsCovered<V>(data: seq<V>, inflight: map<nat, V>, idToRsp: map<nat, nat>, load: Npa -> V,
                                               npa: nat -> Npa, rqst: nat, id: nat)
    requires Covered(data, inflight, idToRsp, load, npa, rqst) && id !in inflight && rqst < |data|
    requires id in idToRsp && idToRsp[id] == Wrap(rqst)
    ensures Covered(data, inflight[id := load(npa(rqst))], idToRsp, load, npa, rqst + 1)
  {
    hide Answers, Wrap;
    var inflight' := inflight[id := load(npa(rqst))];
    forall s | 0 <= s < rqst + 1 && s < WORD32
      ensures Answers(load, npa, rqst + 1, s, data[s]) || Pending(inflight', idToRsp, s)
    {
      if s == rqst {
        WrapSmall(s);
        assert id in inflight';
      } else if Answers(load, npa, rqst, s, data[s]) {
        AnswersGrow(load, npa, rqst, s, data[s]);
      } else {
        var id' :| id' in inflight && id' in idToRsp && idToRsp[id'] == s;
        assert id' in inflight';
      }
    }
  }

  lemma {:induction false} WrapSmall(a: nat)
    ensures Wrap(a) < WORD32 && Wrap(a) <= a && (a < WORD32 ==> Wrap(a) == a)
  {
  }

  lemma {:induction false} PopKeepsPartition<V>(ids: seq<nat>, inflight: map<nat, V>, cap: nat, v: V)
    requires Partition(ids, inflight, cap) && |ids| > 0
    ensures Partition(ids[..|ids| - 1], inflight[ids[|ids| - 1] := v], cap)
  {
    var id := ids[|ids| - 1];
    var ids' := ids[..|ids| - 1];
    assert ids == ids' + [id];
    assert id in ids;
    forall k | k in ids'
      ensures k < cap && k !in inflight && k != id
    {
      var i :| 0 <= i < |ids'| && ids'[i] == k;
      assert ids[i] == k && k in ids;
    }
    forall k: nat {:trigger k in ids'} | k < cap
      ensures k in ids' || k in inflight[id := v]
    {
      assert k in ids || k in inflight;
    }
  }

  lemma {:induction false} PushKeepsPartition<V>(ids: seq<nat>, inflight: map<nat, V>, cap: nat, id: nat)
    requires Partition(ids, inflight, cap) && id in inflight
    ensures Partition(ids + [id], inflight - {id}, cap)
  {
    assert id !in ids;
    forall k: nat {:trigger k in ids + [id]} | k < cap
      ensures k in ids + [id] || k in inflight - {id}
    {
      assert k in ids || k in inflight;
    }
  }

  // ... and an honest answer moves it back and fills in the request's slot.
  lemma {:induction false} ReceiveKeepsBooks<V>(ids: seq<nat>, inflight: map<nat, V>, idToRsp: map<nat, nat>, cap: nat,
                                                load: Npa -> V, npa: nat -> Npa, data: seq<V>, rsp: nat, rqst: nat, id: nat)
    requires Books(ids, inflight, idToRsp, cap, load, npa, data, rsp, rqst)
    requires id in inflight
    ensures id < cap && id in idToRsp && idToRsp[id] < |data| && rsp < rqst
    ensures Books(ids + [id], inflight - {id}, idToRsp, cap, load, npa, data[idToRsp[id] := inflight[id]], rsp + 1, rqst)
  {
    hide Wrap, Answers, Pending;
    PushKeepsPartition(ids, inflight, cap, id);
    assert inflight.Keys == (inflight - {id}).Keys + {id};
    SlotInRange(load, npa, rqst, idToRsp[id], inflight[id]);
    ReceiveKeepsCovered(data, inflight, idToRsp, load, npa, rqst, id);
  }

  lemma {:induction false} SlotInRange<V>(load: Npa -> V, npa: nat -> Npa, rqst: nat, slot: nat, v: V)
    requires Answers(load, npa, rqst, slot, v)
    ensures slot < rqst && slot < WORD32
  {
    hide Wrap;
    var j: nat :| j < rqst && Wrap(j) == slot && v == load(npa(j));
    WrapSmall(j);
  }

  lemma {:induction false} ReceiveKeepsCovered<V>(data: seq<V>, inflight: map<nat, V>, idToRsp: map<nat, nat>, load: Npa -> V,
                                                  npa: nat -> Npa, rqst: nat, id: nat)
    requires Covered(data, inflight, idToRsp, load, npa, rqst)
    requires id in inflight && id in idToRsp && idToRsp[id] < |data| && Answers(load, npa, rqst, idToRsp[id], inflight[id])
    ensures Covered(data[idToRsp[id] := inflight[id]], inflight - {id}, idToRsp, load, npa, rqst)
  {
    hide Answers, Wrap;
    var inflight' := inflight - {id};
    var data' := data[idToRsp[id] := inflight[id]];
    forall s | 0 <= s < rqst && s < WORD32 && !Answers(load, npa, rqst, s, data'[s])
      ensures Pending(inflight', idToRsp, s)
    {
      assert s != idToRsp[id];
      var id' :| id' in inflight && id' in idToRsp && idToRsp[id'] == s;
      assert id' in inflight';
    }
  }

  lemma {:induction false} BooksOutstanding<V>(ids: seq<nat>, inflight: map<nat, V>, idToRsp: map<nat, nat>, cap: nat,
                                               load: Npa -> V, npa: nat -> Npa, data: seq<V>, rsp: nat, rqst: nat)
    requires Books(ids, inflight, idToRsp, cap, load, npa, data, rsp, rqst)
    ensures rsp <= rqst && |inflight| == rqst - rsp
    ensures rsp == rqst ==> Delivered(data, load, npa, rqst)
  {
    hide Answers, Wrap;
    if rsp == rqst { assert inflight == map[]; }
  }

  // Every slot below 2^32 holds the value of a request that has its number in 32 bits.
  ghost predicate Delivered<V>(data: seq<V>, load: Npa -> V, npa: nat -> Npa, rqst: nat) {
    && rqst <= |data|
    && forall s :: 0 <= s < rqst && s < WORD32 ==> Answers(load, npa, rqst, s, data[s])
  }

  /** Up to 2^32 words every slot holds its own value. */
  lemma {:induction false} DeliveredExactly<V>(data: seq<V>, load: Npa -> V, npa: nat -> Npa, rqst: nat)
    requires rqst <= WORD32 && Delivered(data, load, npa, rqst)
    ensures forall i :: 0 <= i < rqst ==> data[i] == load(npa(i))
  {
    hide Wrap;
    forall i | 0 <= i < rqst
      ensures data[i] == load(npa(i))
    {
      var j: nat :| j < rqst && Wrap(j) == i && data[i] == load(npa(j));
      WrapSmall(j);
    }
  }

  // The slots recorded so far lie inside the destination, and are 32-bit numbers.
  predicate InRange(idToRsp: map<nat, nat>, cnt: nat) {
    forall id :: id in idToRsp ==> idToRsp[id] < cnt && idToRsp[id] < WORD32
  }

  lemma {:induction false} RecordInRange(idToRsp: map<nat, nat>, cnt: nat, id: nat, rqst: nat)
    requires InRange(idToRsp, cnt) && rqst < cnt
    ensures InRange(idToRsp[id := Wrap(rqst)], cnt)
  {
    WrapSmall(rqst);
  }

  // Slots that no 32-bit number names
  ghost predicate HighKept<V>(before: seq<V>, after: seq<V>) {
    |after| == |before| && forall s :: WORD32 <= s < |before| ==> after[s] == before[s]
  }

  ghost predicate PeakWithin<V(0)>(net: Network<V>, peak: nat, cap: nat)
    reads net
  {
    net.peak <= peak || net.peak <= cap
  }

  // The first inner loop: request as many words as there are free ids for, until the network is busy.
  method RequestWords<V(0)>(net: Network<V>, npa: nat -> Npa, accepts: Npa -> bool, cap: nat, ghost data: seq<V>,
                            cnt: nat, ids0: seq<nat>, idToRsp0: map<nat, nat>, ghost rsp: nat, rqst0: nat)
    returns (ok: bool, ids: seq<nat>, idToRsp: map<nat, nat>, rqst: nat)
    requires cap >= 1 && |data| == cnt
    requires rsp == rqst0 < cnt && |ids0| == cap && InRange(idToRsp0, cnt)
    requires net.honest ==> Books(ids0, net.inflight, idToRsp0, cap, net.load, npa, data, rsp, rqst0)
    modifies net
    ensures net.honest == old(net.honest)
    ensures !ok ==> rqst < cnt && !accepts(npa(rqst))
    ensures rsp <= rqst <= cnt && |ids| + (rqst - rsp) == cap && InRange(idToRsp, cnt)
    ensures forall i :: rqst0 <= i < rqst ==> accepts(npa(i))
    ensures ok && rqst == rsp ==> net.refusals < old(net.refusals)
    ensures net.honest ==> Books(ids, net.inflight, idToRsp, cap, net.load, npa, data, rsp, rqst)
    ensures net.honest ==> PeakWithin(net, old(net.peak), cap)
  {
    hide Books, Wrap, InRange;
    ids, idToRsp, rqst := ids0, idToRsp0, rqst0;
    while rqst < cnt
      invariant net.honest == old(net.honest)
      invariant rsp <= rqst <= cnt && |ids| + (rqst - rsp) == cap && InRange(idToRsp, cnt)
      invariant forall i :: rqst0 <= i < rqst ==> accepts(npa(i))
      invariant net.honest ==> Books(ids, net.inflight, idToRsp, cap, net.load, npa, data, rsp, rqst)
      invariant net.honest ==> PeakWithin(net, old(net.peak), cap)
      invariant rqst == rsp ==> net.refusals <= old(net.refusals)
      decreases cnt - rqst
    {
      var addr := npa(rqst);
      if |ids| == 0 {
        break;
      }
      var id := ids[|ids| - 1];
      if net.honest {
        RecordKeepsBooks(ids, net.inflight, idToRsp, cap, net.load, npa, data, rsp, rqst);
      }
      RecordInRange(idToRsp, cnt, id, rqst);
      idToRsp := idToRsp[id := Wrap(rqst)];
      if !accepts(addr) {
        return false, ids, idToRsp, rqst;
      }
      ghost var inflight := net.inflight;
      var sent := net.Send(addr, id);
      if !sent {
        break;
      }
      if net.honest {
        SendKeepsBooks(ids, inflight, idToRsp, cap, net.load, npa, data, rsp, rqst, id);
        BooksOutstanding(ids[..|ids| - 1], net.inflight, idToRsp, cap, net.load, npa, data, rsp, rqst + 1);
      }
      rqst := rqst + 1;
      ids := ids[..|ids| - 1];
    }
    return true, ids, idToRsp, rqst;
  }

  // The second inner loop: write every outstanding response to the slot its load id stands for.
  method CollectResponses<V(0)>(net: Network<V>, ghost npa: nat -> Npa, cap: nat, data: array<V>,
                                ids0: seq<nat>, idToRsp: map<nat, nat>, rsp0: nat, rqst: nat)
    returns (ok: bool, ids: seq<nat>)
    requires rsp0 <= rqst <= data.Length && |ids0| + (rqst - rsp0) == cap && InRange(idToRsp, data.Length)
    requires net.honest ==> Books(ids0, net.inflight, idToRsp, cap, net.load, npa, data[..], rsp0, rqst)
    modifies net, data
    ensures net.honest ==> ok && old(net.honest) && net.peak == old(net.peak)
    ensures net.reliable && old(net.honest) ==> net.honest
    ensures net.refusals == old(net.refusals)
    ensures ok ==> |ids| == cap
    ensures HighKept(old(data[..]), data[..])
    ensures net.honest ==> Books(ids, net.inflight, idToRsp, cap, net.load, npa, data[..], rqst, rqst)
  {
    hide Books;
    var rsp := rsp0;
    ids := ids0;
    while rsp < rqst
      invariant rsp0 <= rsp <= rqst && |ids| + (rqst - rsp) == cap
      invariant net.refusals == old(net.refusals) && HighKept(old(data[..]), data[..])
      invariant net.reliable && old(net.honest) ==> net.honest
      invariant net.honest ==> old(net.honest) && net.peak == old(net.peak)
      invariant net.honest ==> Books(ids, net.inflight, idToRsp, cap, net.load, npa, data[..], rsp, rqst)
      decreases rqst - rsp
    {
      ghost var inflight, before := net.inflight, data[..];
      if net.honest {
        BooksOutstanding(ids, inflight, idToRsp, cap, net.load, npa, before, rsp, rqst);
      }
      var value, id := net.Receive();
      if net.honest {
        ReceiveKeepsBooks(ids, inflight, idToRsp, cap, net.load, npa, before, rsp, rqst, id);
      }
      if id >= cap {
        return false, ids;
      }
      if id !in idToRsp {
        return false, ids;
      }
      var idx := idToRsp[id];
      if idx > data.Length {
        assert false;  // the source fails here, but a recorded request number is always in range
      }
      data[idx] := value;
      assert data[..] == before[idx := value];
      rsp := rsp + 1;
      ids := ids + [id];
    }
    return true, ids;
  }

  /** Loads `data.Length` values. `accepts` says which requests can be formatted (valid destination, aligned
  address). An honest network makes the transfer succeed and deliver every value to its slot, whatever the order of
  the answers, with at most `cap` loads outstanding; a dishonest one can make it fail or deliver wrong values, but
  never write outside `data`. Requests are numbered in 32 bits: of more than 2^32 values those past the first 2^32 go
  to the slots at the start. */
  method ReadMemInternal<V(0)>(net: Network<V>, npa: nat -> Npa, accepts: Npa -> bool, cap: nat, data: array<V>)
    returns (r: Result<()>)
    requires cap >= 1
    requires net.inflight == map[]
    modifies net, data
    ensures net.honest && (forall i :: 0 <= i < data.Length ==> accepts(npa(i))) ==> r.Ok?
    ensures net.honest && r.Ok? ==>
      && (forall i :: 0 <= i < data.Length ==> accepts(npa(i)))
      && Delivered(data[..], net.load, npa, data.Length)
      && net.inflight == map[]
    ensures net.honest && r.Ok? && data.Length <= WORD32 ==> forall i :: 0 <= i < data.Length ==> data[i] == net.load(npa(i))
    ensures HighKept(old(data[..]), data[..])
    ensures r.Ok? || r == Err(InvalidAddress) || r == Err(Failure)
    ensures r == Err(InvalidAddress) ==> exists i :: 0 <= i < data.Length && !accepts(npa(i))
    ensures r == Err(Failure) ==> !net.honest
    ensures net.honest ==> old(net.honest) && PeakWithin(net, old(net.peak), cap)
    ensures net.reliable && old(net.honest) ==> net.honest
  {
    var cnt := data.Length;
    var rqst: nat := 0;
    var ids: seq<nat> := seq(cap, i requires 0 <= i < cap => cap - 1 - i);
    var idToRsp: map<nat, nat> := map[];
    InitialBooks(ids, cap, net.load, npa, data[..]);
    hide Books, Delivered;
    // until all responses have arrived
    while rqst < cnt
      invariant rqst <= cnt && |ids| == cap && InRange(idToRsp, cnt)
      invariant forall i :: 0 <= i < rqst ==> accepts(npa(i))
      invariant HighKept(old(data[..]), data[..])
      invariant net.honest ==> Books(ids, net.inflight, idToRsp, cap, net.load, npa, data[..], rqst, rqst)
      invariant net.honest ==> old(net.honest) && PeakWithin(net, old(net.peak), cap)
      invariant net.reliable && old(net.honest) ==> net.honest
      decreases cnt - rqst, net.refusals
    {
      var rsp := rqst;
      var ok;
      ok, ids, idToRsp, rqst := RequestWords(net, npa, accepts, cap, data[..], cnt, ids, idToRsp, rsp, rqst);
      if !ok {
        return Err(InvalidAddress);
      }
      ok, ids := CollectResponses(net, npa, cap, data, ids, idToRsp, rsp, rqst);
      if !ok {
        return Err(Failure);
      }
    }
    if net.honest {
      BooksOutstanding(ids, net.inflight, idToRsp, cap, net.load, npa, data[..], rqst, rqst);
      if cnt <= WORD32 { DeliveredExactly(data[..], net.load, npa, rqst); }
    }
    return Ok(());
  }
}
