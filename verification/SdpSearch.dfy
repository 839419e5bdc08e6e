/** `sdp::resolve_channel`: finding the RFCOMM channel in the records an SDP query returned. */
module SdpSearch {
  import opened Prelude

  const L2CAP: nat := 0x0100
  const RFCOMM: nat := 0x0003

  /** One data element of a protocol descriptor; UUIDs of any width are read as 16-bit values. */
  datatype Element = UuidElement(v: nat) | UInt8(n: byte) | Other

  type Chain = seq<Element>     // one protocol descriptor
  type Stack = seq<Chain>       // one protocol stack

  /** A record, or the failure to get its access protocols. */
  datatype Record = Record(protos: Option<seq<Stack>>)

  // ---- the declarative search ----

  /** The UUID most recently seen before position `j`. */
  function LatestUuid(chain: Chain, j: nat): Option<nat>
    requires j <= |chain|
  {
    if j == 0 then None
    else if chain[j - 1].UuidElement? then Some(chain[j - 1].v)
    else LatestUuid(chain, j - 1)
  }

  predicate Names(chain: Chain, j: nat)
    requires j < |chain|
  {
    chain[j].UInt8? && LatestUuid(chain, j) == Some(RFCOMM)
  }

  /** The first UINT8 at or after `j` whose latest UUID is RFCOMM. */
  function CandidateFrom(chain: Chain, j: nat): Option<byte>
    requires j <= |chain|
    decreases |chain| - j
  {
    if j == |chain| then None
    else if Names(chain, j) then Some(chain[j].n)
    else CandidateFrom(chain, j + 1)
  }

  function Candidate(chain: Chain): Option<byte> {
    CandidateFrom(chain, 0)
  }

  predicate Hit(chain: Chain) {
    Candidate(chain).Some? && Candidate(chain).value > 0
  }

  function Stacks(stacks: seq<Stack>): seq<Chain> {
    if stacks == [] then [] else stacks[0] + Stacks(stacks[1..])
  }

  /** All descriptor chains of a response, in record, stack and descriptor order. */
  function Chains(records: seq<Record>): seq<Chain> {
    if records == [] then []
    else (if records[0].protos.Some? then Stacks(records[0].protos.value) else []) + Chains(records[1..])
  }

  function FirstHit(chains: seq<Chain>): Option<byte> {
    if chains == [] then None
    else if Hit(chains[0]) then Candidate(chains[0])
    else FirstHit(chains[1..])
  }

  // ---- the nested loops ----

  method ScanChain(chain: Chain, found: byte) returns (r: byte)
    ensures r == if Candidate(chain).Some? then Candidate(chain).value else found
  {
    r := found;
    var proto: seq<nat> := [];
    for k := 0 to |chain|
      invariant r == found && Candidate(chain) == CandidateFrom(chain, k)
      invariant LatestUuid(chain, k) == if proto == [] then None else Some(proto[|proto| - 1])
    {
      if chain[k].UuidElement? {
        proto := proto + [chain[k].v];
      }
      if chain[k].UInt8? && |proto| > 0 && proto[|proto| - 1] == RFCOMM {
        r := chain[k].n;
        break;
      }
    }
  }

  method ResolveChannel(connected: bool, status: int, response: seq<Record>) returns (channel: Option<byte>)
    ensures channel == if connected && status == 0 then FirstHit(Chains(response)) else None
    ensures forall v: byte :: channel == Some(v) <==>
              connected && status == 0 && v > 0 && exists r, p, d :: FoundAt(response, v, r, p, d)
  {
    hide FoundAt;
    SearchesAll(response);
    if !connected {
      return None;
    }
    var found: byte := 0;
    if status == 0 {
      ghost var goal := FirstHit(Chains(response));
      for r := 0 to |response|
        invariant found == 0 && goal == FirstHit(Chains(response[r..]))
      {
        ghost var after := Chains(response[r + 1..]);
        assert response[r..][1..] == response[r + 1..];
        assert [] + after == after;
        if response[r].protos.Some? {
          var protos := response[r].protos.value;
          for p := 0 to |protos|
            invariant found == 0 && goal == FirstHit(Stacks(protos[p..]) + after)
          {
            ghost var behind := Stacks(protos[p + 1..]) + after;
            assert protos[p..][1..] == protos[p + 1..];
            Assoc(protos[p], Stacks(protos[p + 1..]), after);
            for d := 0 to |protos[p]|
              invariant found == 0 && goal == FirstHit(protos[p][d..] + behind)
            {
              assert (protos[p][d..] + behind)[1..] == protos[p][d + 1..] + behind;
              found := ScanChain(protos[p][d], found);
              if found > 0 {
                break;
              }
            }
            if found > 0 {
              break;
            }
            assert protos[p][|protos[p]|..] + behind == behind;
          }
          if found <= 0 {
            assert Stacks(protos[|protos|..]) + after == after;
          }
        }
        if found > 0 {
          break;
        }
      }
    }
    return if found > 0 then Some(found) else None;
  }

  // ---- what the search finds ----

  /** A position names the channel exactly when some UUID before it is RFCOMM and no other UUID
      comes in between. */
  lemma {:induction false} LatestUuidExact(chain: Chain, j: nat)
    requires j <= |chain|
    ensures LatestUuid(chain, j) == Some(0x0003) <==>
            exists i :: 0 <= i < j && chain[i] == UuidElement(0x0003)
                        && forall k :: i < k < j ==> !chain[k].UuidElement?
  {
    if j > 0 {
      if chain[j - 1].UuidElement? {
        if chain[j - 1].v == RFCOMM {
          assert chain[j - 1] == UuidElement(RFCOMM);
        }
      } else {
        LatestUuidExact(chain, j - 1);
        if LatestUuid(chain, j - 1) == Some(RFCOMM) {
          var i :| 0 <= i < j - 1 && chain[i] == UuidElement(RFCOMM)
                   && forall k :: i < k < j - 1 ==> !chain[k].UuidElement?;
          assert forall k :: i < k < j ==> !chain[k].UuidElement?;
        }
      }
    }
  }

  /** The candidate of a chain is its first naming position, and there is none without one. */
  lemma {:induction false} CandidateExact(chain: Chain, j: nat, v: byte)
    requires j <= |chain|
    ensures CandidateFrom(chain, j) == Some(v) <==>
            exists i :: j <= i < |chain| && Names(chain, i) && chain[i].n == v
                        && forall k :: j <= k < i ==> !Names(chain, k)
    decreases |chain| - j
  {
    if j < |chain| && !Names(chain, j) {
      CandidateExact(chain, j + 1, v);
    }
  }

  /** The search returns `v` exactly when `v` is non-zero and the candidate of some chain, and
      every chain before that one has no candidate or a zero one. */
  lemma {:induction false} FirstHitExact(chains: seq<Chain>, v: byte)
    ensures FirstHit(chains) == Some(v) <==>
            v > 0 && exists i :: 0 <= i < |chains| && Candidate(chains[i]) == Some(v)
                                 && forall k :: 0 <= k < i ==> !Hit(chains[k])
  {
    hide CandidateFrom;
    if chains != [] {
      if Hit(chains[0]) {
      } else {
        FirstHitExact(chains[1..], v);
        if FirstHit(chains) == Some(v) {
          var i :| 0 <= i < |chains[1..]| && Candidate(chains[1..][i]) == Some(v)
                   && forall k :: 0 <= k < i ==> !Hit(chains[1..][k]);
          assert Candidate(chains[i + 1]) == Some(v);
          forall k | 0 <= k < i + 1 ensures !Hit(chains[k]) {
            assert k > 0 ==> chains[k] == chains[1..][k - 1];
          }
        }
        if v > 0 && exists i :: 0 <= i < |chains| && Candidate(chains[i]) == Some(v)
                                && forall k :: 0 <= k < i ==> !Hit(chains[k]) {
          var i :| 0 <= i < |chains| && Candidate(chains[i]) == Some(v)
                   && forall k :: 0 <= k < i ==> !Hit(chains[k]);
          assert i > 0;
          assert chains[1..][i - 1] == chains[i];
          forall k | 0 <= k < i - 1 ensures !Hit(chains[1..][k]) {
            assert chains[1..][k] == chains[k + 1];
          }
        }
      }
    }
  }

  // ---- which chains are searched ----

  /** There is a chain at descriptor `d` of stack `p` of record `r`... */
  predicate In(response: seq<Record>, r: int, p: int, d: int) {
    && 0 <= r < |response| && response[r].protos.Some?
    && 0 <= p < |response[r].protos.value|
    && 0 <= d < |response[r].protos.value[p]|
  }

  /** ...namely this one. */
  function At(response: seq<Record>, r: int, p: int, d: int): Chain
    requires In(response, r, p, d)
  {
    response[r].protos.value[p][d]
  }

  predicate Earlier(r: int, p: int, d: int, r': int, p': int, d': int) {
    r < r' || (r == r' && (p < p' || (p == p' && d < d')))
  }

  /** The chain at that place names the channel `v`, and no chain at an earlier place names one. */
  ghost predicate FoundAt(response: seq<Record>, v: byte, r: int, p: int, d: int) {
    && In(response, r, p, d) && Candidate(At(response, r, p, d)) == Some(v)
    && forall r', p', d' :: In(response, r', p', d') && Earlier(r', p', d', r, p, d) ==>
                              !Hit(At(response, r', p', d'))
  }

  lemma {:induction false} FirstHitJoin(a: seq<Chain>, b: seq<Chain>)
    ensures FirstHit(a + b) == if FirstHit(a).Some? then FirstHit(a) else FirstHit(b)
  {
    hide CandidateFrom;
    if a == [] {
      assert a + b == b;
    } else {
      assert (a + b)[1..] == a[1..] + b;
      FirstHitJoin(a[1..], b);
    }
  }

  lemma {:induction false} NoHit(chains: seq<Chain>)
    ensures FirstHit(chains) == None <==> forall k :: 0 <= k < |chains| ==> !Hit(chains[k])
  {
    hide CandidateFrom;
    if chains != [] && !Hit(chains[0]) {
      NoHit(chains[1..]);
      assert forall k :: 1 <= k < |chains| ==> chains[k] == chains[1..][k - 1];
      assert forall k :: 0 <= k < |chains[1..]| ==> chains[1..][k] == chains[k + 1];
    }
  }

  /** The first stack in which anything is found decides, and some stack does if anything is. */
  lemma {:induction false} FirstStack(stacks: seq<Stack>) returns (p: nat)
    ensures if FirstHit(Stacks(stacks)).None? then forall k :: 0 <= k < |stacks| ==> FirstHit(stacks[k]).None?
            else
              && p < |stacks| && FirstHit(stacks[p]) == FirstHit(Stacks(stacks))
              && forall k :: 0 <= k < p ==> FirstHit(stacks[k]).None?
  {
    hide FirstHit;
    p := 0;
    if stacks == [] {
      NoHit([]);
    } else {
      FirstHitJoin(stacks[0], Stacks(stacks[1..]));
      if FirstHit(stacks[0]).None? {
        var q := FirstStack(stacks[1..]);
        p := q + 1;
        assert forall k :: 1 <= k < |stacks| ==> stacks[k] == stacks[1..][k - 1];
      }
    }
  }

  function RecordChains(record: Record): seq<Chain> {
    if record.protos.Some? then Stacks(record.protos.value) else []
  }

  lemma {:induction false} FirstRecord(response: seq<Record>) returns (r: nat)
    ensures if FirstHit(Chains(response)).None? then
              forall k :: 0 <= k < |response| ==> FirstHit(RecordChains(response[k])).None?
            else
              && r < |response| && FirstHit(RecordChains(response[r])) == FirstHit(Chains(response))
              && forall k :: 0 <= k < r ==> FirstHit(RecordChains(response[k])).None?
  {
    hide FirstHit, Stacks;
    r := 0;
    if response == [] {
      NoHit([]);
    } else {
      FirstHitJoin(RecordChains(response[0]), Chains(response[1..]));
      if FirstHit(RecordChains(response[0])).None? {
        var q := FirstRecord(response[1..]);
        r := q + 1;
        assert forall k :: 1 <= k < |response| ==> response[k] == response[1..][k - 1];
      }
    }
  }

  /** Nothing found in a record means no chain anywhere in it is a hit. */
  lemma RecordEmpty(response: seq<Record>, r: int)
    requires 0 <= r < |response| && FirstHit(RecordChains(response[r])).None?
    ensures forall p, d :: In(response, r, p, d) ==> !Hit(At(response, r, p, d))
  {
    hide FirstHit, Hit, Stacks;
    forall p, d | In(response, r, p, d) ensures !Hit(At(response, r, p, d)) {
      var stacks := response[r].protos.value;
      var _ := FirstStack(stacks);
      NoHit(stacks[p]);
    }
  }

  lemma StackEmpty(response: seq<Record>, r: int, p: int)
    requires 0 <= r < |response| && response[r].protos.Some? && 0 <= p < |response[r].protos.value|
    requires FirstHit(response[r].protos.value[p]).None?
    ensures forall d :: In(response, r, p, d) ==> !Hit(At(response, r, p, d))
  {
    NoHit(response[r].protos.value[p]);
  }

  /** What is found is found somewhere, and nothing is found earlier. */
  lemma FoundSomewhere(response: seq<Record>, v: byte) returns (r: int, p: int, d: int)
    requires FirstHit(Chains(response)) == Some(v)
    ensures v > 0 && FoundAt(response, v, r, p, d)
  {
    hide FirstHit, Hit, Stacks, Chains, Candidate;
    r := FirstRecord(response);
    if response[r].protos.None? {
      NoHit([]);
    }
    var stacks := response[r].protos.value;
    p := FirstStack(stacks);
    FirstHitExact(stacks[p], v);
    d :| 0 <= d < |stacks[p]| && Candidate(stacks[p][d]) == Some(v) && forall k :: 0 <= k < d ==> !Hit(stacks[p][k]);
    forall r', p', d' | In(response, r', p', d') && Earlier(r', p', d', r, p, d)
      ensures !Hit(At(response, r', p', d'))
    {
      if r' < r {
        RecordEmpty(response, r');
      } else if p' < p {
        StackEmpty(response, r, p');
      }
    }
  }

  /** Of two places one is the earlier, and the chain found is a hit: there is only one. */
  lemma FoundOnce(response: seq<Record>, v: byte, r: int, p: int, d: int, v': byte, r': int, p': int, d': int)
    requires v > 0 && v' > 0 && FoundAt(response, v, r, p, d) && FoundAt(response, v', r', p', d')
    ensures v == v'
  {
    hide Candidate;
    if !Earlier(r, p, d, r', p', d') && !Earlier(r', p', d', r, p, d) {
      assert r == r' && p == p' && d == d';
    }
  }

  lemma FoundIsFirst(response: seq<Record>, v: byte, r: int, p: int, d: int)
    requires v > 0 && FoundAt(response, v, r, p, d)
    ensures FirstHit(Chains(response)) == Some(v)
  {
    hide FirstHit, Stacks, Chains, Candidate;
    var found := FirstHit(Chains(response));
    if found.None? {
      var _ := FirstRecord(response);
      RecordEmpty(response, r);
      assert false;
    }
    var r', p', d' := FoundSomewhere(response, found.value);
    FoundOnce(response, v, r, p, d, found.value, r', p', d');
  }

  /** Every chain of every stack of every record is searched, in that order. */
  lemma SearchExact(response: seq<Record>, v: byte)
    ensures FirstHit(Chains(response)) == Some(v) <==> v > 0 && exists r, p, d :: FoundAt(response, v, r, p, d)
  {
    if FirstHit(Chains(response)) == Some(v) {
      var r, p, d := FoundSomewhere(response, v);
    }
    if v > 0 && exists r, p, d :: FoundAt(response, v, r, p, d) {
      var r, p, d :| FoundAt(response, v, r, p, d);
      FoundIsFirst(response, v, r, p, d);
    }
  }

  lemma SearchesAll(response: seq<Record>)
    ensures forall v: byte :: FirstHit(Chains(response)) == Some(v) <==>
                                v > 0 && exists r, p, d :: FoundAt(response, v, r, p, d)
  {
    hide FirstHit, Chains, FoundAt;
    forall v: byte ensures FirstHit(Chains(response)) == Some(v) <==>
                             v > 0 && exists r, p, d :: FoundAt(response, v, r, p, d)
    {
      SearchExact(response, v);
    }
  }

  // ---- registered records resolve ----

  /** The access protocols `Registration::create` puts into its record. */
  function RecordFor(channel: byte): Record {
    Record(Some([[[UuidElement(L2CAP)], [UuidElement(RFCOMM), UInt8(channel)]]]))
  }

  lemma {:induction false} ChainsAppend(a: seq<Record>, b: seq<Record>)
    ensures Chains(a + b) == Chains(a) + Chains(b)
  {
    if a == [] {
      assert a + b == b;
    } else {
      assert (a + b)[1..] == a[1..] + b;
      ChainsAppend(a[1..], b);
      Assoc(if a[0].protos.Some? then Stacks(a[0].protos.value) else [], Chains(a[1..]), Chains(b));
    }
  }

  lemma {:induction false} FirstHitSkips(a: seq<Chain>, b: seq<Chain>)
    requires FirstHit(a) == None
    ensures FirstHit(a + b) == FirstHit(b)
  {
    hide CandidateFrom;
    if a == [] {
      assert a + b == b;
    } else {
      assert (a + b)[1..] == a[1..] + b;
      FirstHitSkips(a[1..], b);
    }
  }

  /** The access protocols of a serial port record: L2CAP, then RFCOMM with its channel. */
  lemma OwnRecord(channel: byte)
    ensures var c := Chains([RecordFor(channel)]);
            c == [[UuidElement(0x0100)], [UuidElement(0x0003), UInt8(channel)]]
            && Candidate(c[0]) == None && Candidate(c[1]) == Some(channel)
  {
    var own: Chain := [UuidElement(RFCOMM), UInt8(channel)];
    assert LatestUuid(own, 1) == Some(RFCOMM) && Names(own, 1) && !Names(own, 0);
    assert CandidateFrom(own, 0) == CandidateFrom(own, 1) == Some(channel);
    var l2cap: Chain := [UuidElement(L2CAP)];
    assert CandidateFrom(l2cap, 0) == CandidateFrom(l2cap, 1) == None;
    var stack: Stack := [l2cap, own];
    assert Stacks([stack]) == stack + Stacks([]) == stack;
    assert Chains([RecordFor(channel)]) == stack + [] == stack;
  }

  /** A registered record resolves to its channel behind any records without a usable channel,
      and whatever follows it, exactly when that channel is not 0. */
  lemma RegisteredResolves(before: seq<Record>, channel: byte, after: seq<Record>)
    requires FirstHit(Chains(before)) == None
    ensures FirstHit(Chains(before + [RecordFor(channel)] + after)) == Some(channel) <==> channel != 0
  {
    OwnRecord(channel);
    ChainsAppend(before + [RecordFor(channel)], after);
    ChainsAppend(before, [RecordFor(channel)]);
    var c := Chains([RecordFor(channel)]);
    Assoc(Chains(before), c, Chains(after));
    FirstHitSkips(Chains(before), c + Chains(after));
    hide CandidateFrom;
    var all := c + Chains(after);
    assert all[0] == c[0] && all[1] == c[1] && all[1..][0] == c[1];
    assert FirstHit(all) == FirstHit(all[1..]);
    if channel == 0 {
      FirstHitExact(all, 0);
    }
  }
}
