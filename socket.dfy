/** The connected socket as the server sees it through recv(2) and send(2).
    The peer's behaviour is a script of events fixed in advance; a call
    consumes events from the front of the script. Running out of script
    stands for the receive or send timeout set on the socket, which makes
    the call fail. */
module Socket {

  function Min(a: nat, b: nat): nat
  {
    if a <= b then a else b
  }

  // ---------------------------------------------------------------- recv

  /** What the next recv(2) meets: bytes in flight (delivered at most
      `want` at a time, the rest staying at the head of the script), an
      orderly shutdown, an interrupting signal, or an error. */
  datatype RecvEvent = Bytes(data: string) | PeerClosed | Interrupted | RecvFailure

  /** recv's return: n >= 0 bytes, or -1 with errno EINTR, or -1 with any
      other errno. */
  datatype RecvResult = Received(data: string) | RecvEintr | RecvError

  /** The bytes the peer sends before its stream ends: the data of the
      script up to the first shutdown or error (an empty chunk reads as a
      shutdown, since recv then returns 0). */
  function Available(inbox: seq<RecvEvent>): string
  {
    if inbox == [] then []
    else match inbox[0]
      case Bytes(d) => if d == [] then [] else d + Available(inbox[1..])
      case PeerClosed => []
      case Interrupted => Available(inbox[1..])
      case RecvFailure => []
  }

  /** A measure that every recv returning bytes or EINTR decreases. */
  function Weight(inbox: seq<RecvEvent>): nat
  {
    if inbox == [] then 0
    else (if inbox[0].Bytes? then 1 + |inbox[0].data| else 1) + Weight(inbox[1..])
  }

  /** recv(fd, buf, want, 0) on the script. A shutdown is not consumed:
      every later recv returns 0 too. */
  function Recv(inbox: seq<RecvEvent>, want: nat): (res: (RecvResult, seq<RecvEvent>))
    ensures res.0.Received? ==> |res.0.data| <= want
    ensures res.0.Received? ==> Available(inbox) == res.0.data + Available(res.1)
    ensures res.0.Received? && res.0.data == [] ==> want == 0 || Available(inbox) == []
    ensures res.0.Received? && res.0.data != [] ==> Weight(res.1) < Weight(inbox)
    ensures res.0.RecvEintr? ==> Available(res.1) == Available(inbox) && Weight(res.1) < Weight(inbox)
    ensures res.0.RecvError? ==> Available(inbox) == []
  {
    if inbox == [] then (RecvError, inbox)
    else match inbox[0]
      case Bytes(d) =>
        if want == 0 || d == [] then (Received([]), inbox)
        else if |d| <= want then (Received(d), inbox[1..])
        else
          var rest := [Bytes(d[want..])] + inbox[1..];
          assert rest[1..] == inbox[1..];
          assert d == d[..want] + d[want..];
          (Received(d[..want]), rest)
      case PeerClosed => (Received([]), inbox)
      case Interrupted => (RecvEintr, inbox[1..])
      case RecvFailure => (RecvError, inbox[1..])
  }

  // ---------------------------------------------------------------- send

  /** What the next send(2) meets: the kernel takes up to `count` bytes
      (0 means the call returns 0), an interrupting signal, or an error. */
  datatype SendEvent = Accepts(count: nat) | SendInterrupted | SendFailure

  /** send's return: n >= 0 bytes written, -1 with EINTR, -1 otherwise. */
  datatype SendResult = Wrote(n: nat) | SendEintr | SendFailed

  /** send(fd, p, len, 0) on the script: an Accepts event is used up by one
      call, whatever part of it the call needs. */
  function Send(outbox: seq<SendEvent>, len: nat): (res: (SendResult, seq<SendEvent>))
    ensures res.0.Wrote? ==> res.0.n <= len
    ensures |res.1| < |outbox| || outbox == []
  {
    if outbox == [] then (SendFailed, outbox)
    else match outbox[0]
      case Accepts(k) => (Wrote(Min(k, len)), outbox[1..])
      case SendInterrupted => (SendEintr, outbox[1..])
      case SendFailure => (SendFailed, outbox[1..])
  }

  /** How many bytes the peer takes before the first send that returns 0
      or fails. */
  function Capacity(outbox: seq<SendEvent>): nat
  {
    if outbox == [] then 0
    else match outbox[0]
      case Accepts(k) => if k == 0 then 0 else k + Capacity(outbox[1..])
      case SendInterrupted => Capacity(outbox[1..])
      case SendFailure => 0
  }

  /** One send call against Capacity: a partial write uses up exactly what
      it wrote of the capacity still needed, an interrupt uses none, and a
      call that writes nothing or fails means the capacity is spent. */
  lemma SendStep(outbox: seq<SendEvent>, len: nat)
    requires len > 0
    ensures var (r, rest) := Send(outbox, len);
      && (r.Wrote? && r.n > 0 ==> Min(len, Capacity(outbox)) == r.n + Min(len - r.n, Capacity(rest)))
      && (r.SendEintr? ==> Capacity(rest) == Capacity(outbox))
      && (r.SendFailed? || (r.Wrote? && r.n == 0) ==> Capacity(outbox) == 0)
  {
  }

  /** The connection: what the peer will do, and the bytes it has received
      from the server so far. */
  datatype Peer = Peer(inbox: seq<RecvEvent>, outbox: seq<SendEvent>, wire: string)
}
