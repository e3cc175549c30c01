/**
 Length-prefixed frames over a byte stream that delivers its bytes in arbitrary pieces.

 A byte is a `char` below 256.  `Socket` is the reading end of a connection: the bytes still
 to come, and the schedule the kernel will deliver them on.
 */
module Frames {
  import opened Json
  import opened Payload

  /** `CTC_MAX_MSG` on the agent, `MaxMessageSize` on the server. */
  const MAX_MESSAGE: nat := 32 * 1024 * 1024

  // ---- frames ----

  function BigEndian(n: nat): (h: string)
    requires n < 0x1_0000_0000
    ensures |h| == 4
  {
    [(n / 0x100_0000) as char, (n / 0x1_0000 % 0x100) as char, (n / 0x100 % 0x100) as char, (n % 0x100) as char]
  }

  function FromBigEndian(h: string): nat
    requires |h| == 4
  {
    h[0] as nat * 0x100_0000 + h[1] as nat * 0x1_0000 + h[2] as nat * 0x100 + h[3] as nat
  }

  lemma BigEndianRoundTrip(n: nat)
    requires n < 0x1_0000_0000
    ensures FromBigEndian(BigEndian(n)) == n
  {
    assert n / 0x1_0000 == n / 0x100 / 0x100;
    assert n / 0x100_0000 == n / 0x1_0000 / 0x100;
  }

  /** Most significant byte first. */
  lemma HeaderBytes()
    ensures BigEndian(0x0102_0304) == [1 as char, 2 as char, 3 as char, 4 as char]
  {
  }

  predicate Sendable(body: string) { 0 < |body| <= MAX_MESSAGE }

  function Frame(body: string): string
    requires Sendable(body)
  {
    BigEndian(|body|) + body
  }

  function Stream(bodies: seq<string>): string
    requires forall i :: 0 <= i < |bodies| ==> Sendable(bodies[i])
  {
    if bodies == [] then "" else Frame(bodies[0]) + Stream(bodies[1..])
  }

  datatype Received = Lost | Got(body: string, rest: string)

  /** The first frame of a stream, or `Lost` if it is cut short or its length is refused. */
  function FirstFrame(data: string): Received {
    if |data| < 4 then Lost
    else
      var n := FromBigEndian(data[..4]);
      if n == 0 || n > MAX_MESSAGE || |data| < 4 + n then Lost else Got(data[4..4 + n], data[4 + n..])
  }

  lemma FirstFrameOfFrame(body: string, rest: string)
    requires Sendable(body)
    ensures FirstFrame(Frame(body) + rest) == Got(body, rest)
  {
    BigEndianRoundTrip(|body|);
    assert (Frame(body) + rest)[..4] == BigEndian(|body|);
  }

  /** A frame of no length or of more than 32 MiB is refused, whatever follows. */
  lemma RefusedLengths(n: nat, rest: string)
    requires n == 0 || 0x200_0000 < n < 0x1_0000_0000
    ensures FirstFrame(BigEndian(n) + rest) == Lost
  {
    BigEndianRoundTrip(n);
    assert (BigEndian(n) + rest)[..4] == BigEndian(n);
  }

  // ---- reading in pieces ----

  /** One return from `read`: some bytes, an interrupted call, or a failure. */
  datatype Event = Bytes(atMost: nat) | Interrupted | Failed

  function Deliveries(plan: seq<Event>): nat {
    if plan == [] then 0 else (if plan[0].Bytes? then 1 else 0) + Deliveries(plan[1..])
  }

  predicate Steady(plan: seq<Event>) {
    forall i :: 0 <= i < |plan| ==> !plan[i].Failed?
  }

  predicate Uninterrupted(plan: seq<Event>) {
    forall i :: 0 <= i < |plan| ==> !plan[i].Interrupted?
  }

  /** How many bytes one delivery hands over. */
  function Taken(atMost: nat, need: nat, left: nat): nat {
    var k := if atMost == 0 then 1 else atMost;
    if k > need && need <= left then need else if k > left then left else k
  }

  /**
   The schedules on which a loop that still needs `need` bytes never ends, with `left` bytes to
   come: it finds the stream at its end while `errno` holds EINTR, and no other error follows.
   */
  predicate Spins(plan: seq<Event>, left: nat, need: nat, eintr: bool)
    decreases |plan|
  {
    if need == 0 then false
    else if plan == [] then eintr
    else
      match plan[0]
      case Interrupted => Spins(plan[1..], left, need, true)
      case Failed => false
      case Bytes(k) =>
        if left == 0 then eintr && Spins(plan[1..], 0, need, true)
        else if Taken(k, need, left) >= need then false
        else Spins(plan[1..], left - Taken(k, need, left), need - Taken(k, need, left), eintr)
  }

  /** At the end of the stream: no other error, and an interruption first or a left-over EINTR. */
  lemma {:induction false} SpinsAtEnd(plan: seq<Event>, need: nat, eintr: bool)
    requires need > 0
    ensures Spins(plan, 0, need, eintr) <==> Steady(plan) && (eintr || (plan != [] && plan[0].Interrupted?))
    decreases |plan|
  {
    if plan != [] {
      SpinsAtEnd(plan[1..], need, true);
      assert plan == [plan[0]] + plan[1..];
    }
  }

  /** Without an interruption or a left-over EINTR no loop spins, and none spins past another error. */
  lemma {:induction false} SpinsOnlyIf(plan: seq<Event>, left: nat, need: nat, eintr: bool)
    requires Spins(plan, left, need, eintr)
    ensures Steady(plan) && (eintr || !Uninterrupted(plan))
    ensures left < need || Deliveries(plan) < need
    decreases |plan|
  {
    if plan != [] {
      var p := plan[0];
      assert plan == [p] + plan[1..];
      if p.Bytes? && left > 0 {
        var k := Taken(p.atMost, need, left);
        SpinsOnlyIf(plan[1..], left - k, need - k, eintr);
      } else {
        SpinsOnlyIf(plan[1..], left, need, true);
      }
    }
  }

  /** A stream that ends after an interrupted read of the header. */
  lemma InterruptedThenClosed()
    ensures Spins([Interrupted], 0, 4, false)
  {
    SpinsAtEnd([Interrupted], 4, false);
  }

  /** `eintr` says that `errno` holds EINTR: only another error changes it, a good read does not. */
  class Socket {
    var data: string
    var plan: seq<Event>
    var eintr: bool

    constructor (data: string, plan: seq<Event>)
      ensures this.data == data && this.plan == plan && !eintr
    {
      this.data, this.plan, eintr := data, plan, false;
    }

    /** `read`: at least one byte and at most `n`; nothing at the end of the stream or on an error. */
    method Read(n: nat) returns (bytes: string)
      requires n > 0
      modifies this
      ensures |bytes| <= n && old(data) == bytes + data
      ensures old(plan) == [] ==> bytes == "" && plan == [] && eintr == old(eintr)
      ensures old(plan) != [] ==> plan == old(plan)[1..]
      ensures old(plan) != [] && old(plan)[0].Interrupted? ==> bytes == "" && eintr
      ensures old(plan) != [] && !old(plan)[0].Interrupted? ==> eintr ==> old(eintr)
      ensures old(plan) != [] && old(plan)[0].Failed? ==> bytes == "" && !eintr
      ensures old(plan) != [] && old(plan)[0].Bytes? ==> eintr == old(eintr)
      ensures old(plan) != [] && old(plan)[0].Bytes? ==>
                |bytes| == if old(data) == "" then 0 else Taken(old(plan)[0].atMost, n, |old(data)|)
      ensures old(plan) != [] && old(plan)[0].Bytes? && old(data) != "" ==> bytes != ""
    {
      bytes := "";
      if plan == [] { return; }
      var e := plan[0];
      plan := plan[1..];
      if e.Interrupted? {
        eintr := true;
      } else if e.Failed? {
        eintr := false;
      } else if data != "" {
        var k := if e.atMost == 0 then 1 else e.atMost;
        if k > n { k := n; }
        if k > |data| { k := |data|; }
        bytes := data[..k];
        data := data[k..];
      }
    }

    /**
     `read_all` and `io.ReadFull`: exactly `n` bytes, however they arrive.  `hangs` is the loop
     that never ends: the stream is at its end and `errno` is a left-over EINTR.
     */
    method ReadAll(n: nat) returns (out: Option<string>, hangs: bool)
      modifies this
      ensures out.Some? ==> n <= |old(data)| && out.value == old(data)[..n] && data == old(data)[n..] && !hangs
      ensures hangs <==> Spins(old(plan), |old(data)|, n, old(eintr))
      ensures hangs <==> out.None? && eintr
      ensures old(Steady(plan)) && |old(data)| >= n ==> Steady(plan) && Deliveries(plan) + n >= old(Deliveries(plan))
      ensures old(Steady(plan)) && |old(data)| >= n && old(Deliveries(plan)) >= n ==> out.Some?
      ensures old(!eintr && Uninterrupted(plan)) ==> !eintr && Uninterrupted(plan)
    {
      var buf := "";
      hangs := false;
      while |buf| < n
        invariant |buf| <= n && old(data) == buf + data
        invariant old(Steady(plan)) && |old(data)| >= n ==>
                    Steady(plan) && Deliveries(plan) + |buf| >= old(Deliveries(plan))
        invariant old(!eintr && Uninterrupted(plan)) ==> !eintr && Uninterrupted(plan)
        invariant Spins(old(plan), |old(data)|, n, old(eintr)) <==> Spins(plan, |data|, n - |buf|, eintr)
        decreases |plan|, n - |buf|
      {
        ghost var before := plan;
        var bytes := Read(n - |buf|);
        assert before != [] && old(Steady(plan)) && |old(data)| >= n ==> !before[0].Failed?;
        assert before != [] && old(!eintr && Uninterrupted(plan)) ==> !before[0].Interrupted?;
        buf := buf + bytes;
        if bytes == "" {
          if !eintr { return None, false; }
          if plan == [] { return None, true; }
        }
      }
      assert old(data)[..n] == buf;
      out := Some(buf);
    }

    /** The reading half of `ctc_recv` and of `Decode`. */
    method Receive() returns (out: Option<string>, hangs: bool)
      modifies this
      ensures out.Some? ==> FirstFrame(old(data)) == Got(out.value, data)
      ensures old(Steady(plan)) && old(Deliveries(plan)) >= |old(data)| && FirstFrame(old(data)).Got? ==>
                out.Some? && Steady(plan) && Deliveries(plan) >= |data|
      ensures old(!eintr && Uninterrupted(plan)) ==> !eintr && Uninterrupted(plan) && !hangs
    {
      var header;
      header, hangs := ReadAll(4);
      if header.None? { return None, hangs; }
      var n := FromBigEndian(header.value);
      if n == 0 || n > MAX_MESSAGE { return None, false; }
      ghost var rest := data;
      out, hangs := ReadAll(n);
      assert old(data)[4..] == rest;
      assert out.Some? ==> rest[..n] == old(data)[4..4 + n] && rest[n..] == old(data)[4 + n..];
    }
  }

  /**
   The reader of a connection: it takes frames until one is lost.  Whatever the schedule, it
   gets the sent bodies in order from the first; it gets all of them if the connection holds.
   */
  method ReceiveAll(sock: Socket, ghost sent: seq<string>) returns (bodies: seq<string>, hangs: bool)
    requires forall i :: 0 <= i < |sent| ==> Sendable(sent[i])
    requires sock.data == Stream(sent)
    modifies sock
    ensures bodies <= sent
    ensures old(Steady(sock.plan)) && old(Deliveries(sock.plan)) >= |old(sock.data)| ==> bodies == sent
    ensures old(!sock.eintr && Uninterrupted(sock.plan)) ==> !hangs
  {
    bodies := [];
    ghost var left := sent;
    while true
      invariant sent == bodies + left
      invariant forall i :: 0 <= i < |left| ==> Sendable(left[i])
      invariant sock.data == Stream(left)
      invariant old(Steady(sock.plan)) && old(Deliveries(sock.plan)) >= |old(sock.data)| ==>
                  Steady(sock.plan) && Deliveries(sock.plan) >= |sock.data|
      invariant old(!sock.eintr && Uninterrupted(sock.plan)) ==> !sock.eintr && Uninterrupted(sock.plan)
      decreases |left|
    {
      FirstOfStream(left);
      var body;
      body, hangs := sock.Receive();
      if body.None? { return; }
      MoveOne(bodies, left);
      bodies := bodies + [body.value];
      left := left[1..];
    }
  }

  lemma FirstOfStream(bodies: seq<string>)
    requires forall i :: 0 <= i < |bodies| ==> Sendable(bodies[i])
    ensures FirstFrame(Stream(bodies)) == if bodies == [] then Lost else Got(bodies[0], Stream(bodies[1..]))
  {
    if bodies != [] { FirstFrameOfFrame(bodies[0], Stream(bodies[1..])); }
  }

  lemma MoveOne(done: seq<string>, left: seq<string>)
    requires left != []
    ensures done + [left[0]] + left[1..] == done + left
  {
  }

  // ---- writing in pieces ----

  /** The writing end of a connection: what it has taken so far, and how it takes the rest. */
  class Wire {
    var sent: string
    var plan: seq<Event>

    constructor (plan: seq<Event>)
      ensures sent == "" && this.plan == plan
    {
      sent, this.plan := "", plan;
    }

    /** `write_all`: on success all of `buf` is sent; on failure some first part of it. */
    method WriteAll(buf: string) returns (ok: bool)
      modifies this
      ensures old(sent) <= sent <= old(sent) + buf
      ensures ok <==> sent == old(sent) + buf
      ensures old(Steady(plan)) ==> Steady(plan) && Deliveries(plan) + |buf| >= old(Deliveries(plan))
      ensures old(Steady(plan)) && old(Deliveries(plan)) >= |buf| ==> ok
    {
      var done: nat := 0;
      while done < |buf|
        invariant 0 <= done <= |buf| && sent == old(sent) + buf[..done]
        invariant old(Steady(plan)) ==> Steady(plan) && Deliveries(plan) + done >= old(Deliveries(plan))
        decreases |plan|, |buf| - done
      {
        if plan == [] || plan[0].Failed? { return false; }
        var e := plan[0];
        plan := plan[1..];
        if e.Bytes? {
          var k := if e.atMost == 0 then 1 else e.atMost;
          if k > |buf| - done { k := |buf| - done; }
          sent := sent + buf[done..done + k];
          assert buf[..done] + buf[done..done + k] == buf[..done + k];
          done := done + k;
        }
      }
      assert buf[..done] == buf;
      ok := true;
    }

    /** `send_frame`: a body of refused length is not sent at all. */
    method SendFrame(body: string) returns (ok: bool)
      modifies this
      ensures ok <==> Sendable(body) && sent == old(sent) + Frame(body)
      ensures old(sent) <= sent
      ensures !Sendable(body) ==> sent == old(sent)
      ensures Sendable(body) ==> sent <= old(sent) + Frame(body)
      ensures Sendable(body) && old(Steady(plan)) && old(Deliveries(plan)) >= 4 + |body| ==> ok
    {
      if |body| == 0 || |body| > MAX_MESSAGE { return false; }
      ok := WriteAll(BigEndian(|body|));
      assert old(sent) + BigEndian(|body|) <= old(sent) + Frame(body);
      if ok {
        ghost var mid := sent;
        ok := WriteAll(body);
        assert mid + body == old(sent) + Frame(body);
      }
    }
  }

  // ---- payloads end to end ----

  function Bodies(ms: seq<Message>): (bs: seq<string>)
    ensures |bs| == |ms| && forall i :: 0 <= i < |ms| ==> bs[i] == BodyOf(ms[i])
  {
    seq(|ms|, i requires 0 <= i < |ms| => BodyOf(ms[i]))
  }

  /** From the server's messages to the payload texts the agent works on. */
  method ReceivePayloads(sock: Socket, ghost ms: seq<Message>) returns (out: seq<Option<string>>)
    requires forall i :: 0 <= i < |ms| ==>
               ValidMessage(ms[i]) && Sendable(BodyOf(ms[i]))
    requires sock.data == Stream(Bodies(ms))
    modifies sock
    ensures |out| <= |ms|
    ensures forall i :: 0 <= i < |out| ==>
              out[i] == if FieldSpells(ms[i]) then None else Carried(ms[i])
    ensures old(Steady(sock.plan)) && old(Deliveries(sock.plan)) >= |old(sock.data)| ==> |out| == |ms|
  {
    var bodies, _ := ReceiveAll(sock, Bodies(ms));
    out := CutAll(bodies);
    forall i | 0 <= i < |out|
      ensures out[i] == if FieldSpells(ms[i]) then None else Carried(ms[i])
    {
      assert bodies[i] == Bodies(ms)[i];
      PayloadExact(ms[i]);
    }
  }

  method CutAll(bodies: seq<string>) returns (out: seq<Option<string>>)
    ensures |out| == |bodies| && forall i :: 0 <= i < |out| ==> out[i] == CutPayload(bodies[i])
  {
    out := [];
    for i := 0 to |bodies|
      invariant |out| == i && forall j :: 0 <= j < i ==> out[j] == CutPayload(bodies[j])
    {
      var cut := DupPayloadRaw(bodies[i]);
      out := out + [cut];
    }
  }
}
