/** `send_all` and `recv_all`: the loops that complete partial transfers. */
module Transfer {
  import opened Prelude
  import Os

  datatype SendResult = SendResult(ok: bool, count: nat, net: Os.Outbound)

  function SendAll(net: Os.Outbound, data: seq<byte>, count: nat): SendResult
    requires count <= |data|
    decreases |data| - count
  {
    if count == |data| then SendResult(true, count, net)
    else
      var (k, net1) := Os.Send(net, data[count..]);
      if k <= 0 then SendResult(false, count, net1) else SendAll(net1, data, count + k)
  }

  lemma SliceJoin<T>(s: seq<T>, i: nat, j: nat, k: nat)
    requires i <= j <= k <= |s|
    ensures s[i..j] + s[j..k] == s[i..k] && s[i..][..j - i] == s[i..j]
  {
  }

  predicate Positive(answers: seq<int>) {
    forall i :: 0 <= i < |answers| ==> answers[i] > 0
  }

  function Sum(answers: seq<int>): int {
    if answers == [] then 0 else answers[0] + Sum(answers[1..])
  }

  lemma SendUses(net: Os.Outbound, data: seq<byte>)
    requires data != [] && net.sends != []
    ensures var (k, net1) := Os.Send(net, data);
            && net1.sends == net.sends[1..] && net.sends == [net.sends[0]] + net1.sends
            && (k > 0 <==> net.sends[0] > 0) && (k > 0 ==> k == Min(net.sends[0], |data|))
  {
  }

  lemma SendSpent(net: Os.Outbound, data: seq<byte>)
    requires data != [] && net.sends == []
    ensures Os.Send(net, data) == (-1, net)
  {
  }

  lemma OneAnswerMore(first: int, rest: seq<int>)
    ensures var all := [first] + rest;
            && Sum(all) == first + Sum(rest)
            && (rest != [] ==> Sum(all[..|rest|]) == first + Sum(rest[..|rest| - 1]))
            && (rest == [] ==> Sum(all[..0]) == 0)
            && (Positive(all) <==> first > 0 && Positive(rest))
            && (rest != [] ==> (Positive(all[..|rest|]) <==> first > 0 && Positive(rest[..|rest| - 1])))
  {
    hide Sum, Positive;
    Empty();
    Pairs(first, rest);
    var all := [first] + rest;
    if rest == [] {
      assert all[..0] == [];
    } else {
      Pairs(first, rest[..|rest| - 1]);
      assert all[..|rest|] == [first] + rest[..|rest| - 1];
    }
  }

  lemma Pairs(first: int, rest: seq<int>)
    ensures Positive([first] + rest) <==> first > 0 && Positive(rest)
    ensures Sum([first] + rest) == first + Sum(rest)
  {
    var all := [first] + rest;
    assert all[0] == first && all[1..] == rest;
    if Positive(all) {
      forall i | 0 <= i < |rest| ensures rest[i] > 0 {
        assert all[i + 1] > 0;
      }
    }
  }

  /** Sending `missing` bytes got the answers `used`, moved `moved` bytes and came to `ok`, with the
      answers `left` still to come.  When true, every answer was positive and the last one was
      needed.  When false, the last answer is the only one that was not positive, or all were and
      there are no more; what the positive ones accepted is what went out. */
  predicate Used(ok: bool, moved: int, missing: int, used: seq<int>, left: seq<int>) {
    var n := |used|;
    if ok then Positive(used) && missing <= Sum(used) && (n > 0 ==> Sum(used[..n - 1]) < missing)
    else if n > 0 && used[n - 1] <= 0 then Positive(used[..n - 1]) && moved == Sum(used[..n - 1])
    else Positive(used) && left == [] && moved == Sum(used)
  }

  lemma UsedOneMore(ok: bool, moved: int, missing: int, used: seq<int>, left: seq<int>, first: int)
    requires first > 0 && missing > 0
    requires if ok then Used(true, moved, missing - Min(first, missing), used, left)
             else first < missing && Used(false, moved, missing - first, used, left)
    ensures Used(ok, moved + Min(first, missing), missing, [first] + used, left)
  {
    hide Sum, Positive;
    OneAnswerMore(first, used);
    Empty();
    NotNegative(used);
    var n := |used|;
    var all := [first] + used;
    if n > 0 {
      NotNegative(used[..n - 1]);
      KeepsPositive(used);
      assert all[n] == used[n - 1] && |all| - 1 == n;
    }
  }

  /** How `send_all` uses the schedule: each send is for all that is left. */
  lemma {:induction false} SendAllUses(net: Os.Outbound, data: seq<byte>, count: nat) returns (used: seq<int>)
    requires count <= |data|
    ensures var r := SendAll(net, data, count);
            net.sends == used + r.net.sends && Used(r.ok, r.count - count, |data| - count, used, r.net.sends)
    decreases |data| - count
  {
    hide Os.Send, Used;
    if count == |data| || net.sends == [] {
      used := [];
      if count < |data| {
        SendSpent(net, data[count..]);
      }
      NoneUsed(count == |data|, |data| - count, net.sends);
    } else {
      SendUses(net, data[count..]);
      var first := net.sends[0];
      var (k, net1) := Os.Send(net, data[count..]);
      if k <= 0 {
        used := [first];
        OneRefused(|data| - count, first, net1.sends);
      } else {
        var rest := SendAllUses(net1, data, count + k);
        used := [first] + rest;
        var r := SendAll(net1, data, count + k);
        SendAllTransmits(net1, data, count + k);
        UsedOneMore(r.ok, r.count - count - k, |data| - count, rest, r.net.sends, first);
      }
    }
  }

  lemma NoneUsed(ok: bool, missing: int, left: seq<int>)
    requires if ok then missing == 0 else left == []
    ensures Used(ok, 0, missing, [], left)
  {
  }

  lemma OneRefused(missing: int, first: int, left: seq<int>)
    requires first <= 0
    ensures Used(false, 0, missing, [first], left)
  {
    assert [first][..0] == [];
  }

  lemma {:induction false} NotNegative(answers: seq<int>)
    ensures Positive(answers) ==> Sum(answers) >= 0
  {
    if answers != [] && Positive(answers) {
      assert answers[0] > 0;
      NotNegative(answers[1..]);
    }
  }

  lemma KeepsPositive(answers: seq<int>)
    requires answers != []
    ensures Positive(answers) ==> Positive(answers[..|answers| - 1])
  {
  }

  lemma Empty()
    ensures Positive([]) && Sum([]) == 0
  {
  }

  datatype RecvResult = RecvResult(ok: bool, data: seq<byte>, net: Os.Inbound)

  function RecvAll(net: Os.Inbound, n: nat, got: seq<byte>): RecvResult
    requires |got| <= n
    decreases n - |got|
  {
    if |got| == n then RecvResult(true, got, net)
    else
      var r := Os.Recv(net, n - |got|);
      if r.ret <= 0 then RecvResult(false, got, r.net) else RecvAll(r.net, n, got + r.data)
  }

  lemma RecvAllStep(net: Os.Inbound, n: nat, got: seq<byte>)
    requires |got| <= n
    ensures RecvAll(net, n, got) ==
            if |got| == n then RecvResult(true, got, net)
            else
              var r := Os.Recv(net, n - |got|);
              if r.ret <= 0 then RecvResult(false, got, r.net) else RecvAll(r.net, n, got + r.data)
  {
  }

  /** Exactly the next n bytes of the stream when true; a strict prefix of them, after exactly one
      failed recv, when false. */
  lemma {:induction false} RecvAllFills(net: Os.Inbound, n: nat, got: seq<byte>)
    requires |got| <= n
    ensures var r := RecvAll(net, n, got);
            && got + net.ahead == r.data + r.net.ahead
            && |got| <= |r.data| <= n && (r.ok <==> |r.data| == n)
            && r.net.faults == net.faults + (if r.ok then 0 else 1)
    decreases n - |got|
  {
    hide Os.Recv;
    if |got| < n {
      var r := Os.Recv(net, n - |got|);
      if r.ret > 0 {
        RecvAllFills(r.net, n, got + r.data);
        Assoc(got, r.data, r.net.ahead);
      }
    }
  }

  /** Each recv is for all that is left: if the next answer can give that much, it is the last. */
  lemma RecvAllAsksForAll(net: Os.Inbound, n: nat, got: seq<byte>)
    requires |got| < n && net.next < |net.script|
    requires var e := net.script[net.next];
             n - |got| <= e.limit && n - |got| <= Min(net.avail + e.more, |net.ahead|)
    ensures var r := RecvAll(net, n, got);
            r.ok && r.data == got + net.ahead[..n - |got|] && r.net.next == net.next + 1
  {
    var r := Os.Recv(net, n - |got|);
    RecvAllStep(net, n, got);
    RecvAllStep(r.net, n, got + r.data);
  }

  /** Exactly the data when true, a strict prefix of it when false. */
  lemma {:induction false} SendAllTransmits(net: Os.Outbound, data: seq<byte>, count: nat)
    requires count <= |data|
    ensures var r := SendAll(net, data, count);
            && count <= r.count <= |data|
            && (r.ok <==> r.count == |data|)
            && r.net.sent == net.sent + data[count..r.count]
    decreases |data| - count
  {
    if count < |data| {
      var (k, net1) := Os.Send(net, data[count..]);
      if k > 0 {
        SendAllTransmits(net1, data, count + k);
        var r := SendAll(net1, data, count + k);
        Assoc(net.sent, data[count..count + k], data[count + k..r.count]);
        SliceJoin(data, count, count + k, r.count);
      }
    }
  }

  /** Sender and receiver composed: if the stream ahead of the receiver is what the sender puts
      out and then anything else, a `send_all` and a `recv_all` of the same length that both
      succeed move the bytes intact and leave the rest of the stream where it was. */
  lemma TransferIsIdentity(out: Os.Outbound, data: seq<byte>, inn: Os.Inbound, more: seq<byte>)
    requires SendAll(out, data, 0).ok && RecvAll(inn, |data|, []).ok
    requires out.sent + inn.ahead == SendAll(out, data, 0).net.sent + more
    ensures RecvAll(inn, |data|, []).data == data && RecvAll(inn, |data|, []).net.ahead == more
  {
    SendAllTransmits(out, data, 0);
    RecvAllFills(inn, |data|, []);
    var r := RecvAll(inn, |data|, []);
    assert data[0..|data|] == data && [] + inn.ahead == inn.ahead;
    Assoc(out.sent, data, more);
    FrontBack(out.sent + inn.ahead, out.sent, inn.ahead);
    FrontBack(out.sent + inn.ahead, out.sent, data + more);
    FrontBack(inn.ahead, r.data, r.net.ahead);
    FrontBack(inn.ahead, data, more);
  }

  /** What a party has put out since then lies in front of its peer. */
  function Delivered(net: Os.Inbound, before: Os.Outbound, after: Os.Outbound): Os.Inbound
    requires before.sent <= after.sent
  {
    net.(ahead := net.ahead + after.sent[|before.sent|..])
  }

  lemma DeliveredIs(net: Os.Inbound, before: Os.Outbound, after: Os.Outbound, d: seq<byte>)
    requires after.sent == before.sent + d
    ensures before.sent <= after.sent && Delivered(net, before, after) == net.(ahead := net.ahead + d)
  {
    FrontBack(after.sent, before.sent, d);
  }
}
