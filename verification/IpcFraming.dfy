/** Payloads as pairs of datagrams: a fixed-size header, then the data with its descriptors. */
module IpcFraming {
  import opened Bytes

  const EINVAL: int := 22
  const EAGAIN: int := 11
  const ENOTCONN: int := 107

  datatype Datagram = Datagram(bytes: seq<byte>, fds: seq<int>)

  datatype Payload = Payload(data: seq<byte>, fds: seq<int>)

  /** struct Header: a 32-bit data size and an 8-bit descriptor count. */
  datatype Header = Header(data: nat, fds: nat)

  function HeaderOf(p: Payload): (h: Header)
    ensures h.data < U32 && h.fds < 256
  {
    Header(|p.data| % U32, |p.fds| % 256)
  }

  function HeaderBytes(h: Header): (s: seq<byte>)
    requires h.fds < 256
    ensures |s| == 8
  {
    EncodeU32(h.data) + [h.fds as byte, 0, 0, 0]
  }

  /** What send() puts on the wire: as much as the header's fields can count. */
  function Wire(p: Payload): Payload {
    var h := HeaderOf(p);
    Payload(p.data[..h.data], p.fds[..h.fds])
  }

  function HeaderDatagram(p: Payload): Datagram {
    Datagram(HeaderBytes(HeaderOf(p)), [])
  }

  function DataDatagram(p: Payload): Datagram {
    Datagram(Wire(p).data, Wire(p).fds)
  }

  /** A buffer of n elements, zeroed, into which s is received. */
  function Fit<T>(s: seq<T>, n: nat, zero: T): (r: seq<T>)
    ensures |r| == n && forall i | 0 <= i < n :: r[i] == if i < |s| then s[i] else zero
  {
    if |s| >= n then s[..n] else s + seq(n - |s|, _ => zero)
  }

  /** recv() into header_: a short datagram leaves the tail as it was. */
  function ReadHeader(h: Header, d: Datagram): (r: Header)
    requires h.fds < 256
    ensures r.fds < 256
  {
    var was := HeaderBytes(h);
    var now := if |d.bytes| >= 8 then d.bytes[..8] else d.bytes + was[|d.bytes|..];
    Header(Decode(now[..4]), now[4] as nat)
  }

  /** The bytes of the counts come from the datagram as far as it reaches; the others stay. */
  lemma HeaderIsRead(h: Header, d: Datagram, i: nat)
    requires h.fds < 256 && i < 5
    ensures HeaderBytes(ReadHeader(h, d))[i] == if i < |d.bytes| then d.bytes[i] else HeaderBytes(h)[i]
  {
    var was := HeaderBytes(h);
    var now := if |d.bytes| >= 8 then d.bytes[..8] else d.bytes + was[|d.bytes|..];
    Pow256Values();
    DecodeBounds(now[..4]);
    EncodeDecode(now[..4]);
    hide Decode, Encode;
    assert EncodeU32(ReadHeader(h, d).data) == now[..4];
  }

  lemma ReadHeaderDatagram(h: Header, p: Payload)
    requires h.fds < 256
    ensures ReadHeader(h, HeaderDatagram(p)) == HeaderOf(p)
  {
    var s := HeaderBytes(HeaderOf(p));
    assert s[..8] == s && s[..4] == EncodeU32(HeaderOf(p).data);
    DecodeU32(HeaderOf(p).data);
  }

  /** The receiving socket: the one-bit state, the header it last read, whether its notifier is enabled. */
  datatype Receiver = Receiver(headerReceived: bool, header: Header, enabled: bool)

  const IDLE := Receiver(false, Header(0, 0), true)

  /** dataNotifier(): runs when data is ready and the notifier is enabled. True is a readyRead signal. */
  function OnData(r: Receiver, q: seq<Datagram>): (Receiver, seq<Datagram>, bool)
    requires q != [] && r.header.fds < 256
  {
    var r1 := if r.headerReceived then r else r.(headerReceived := true, header := ReadHeader(r.header, q[0]));
    var q1 := if r.headerReceived then q else q[1..];
    if q1 == [] then (r1, q1, false) else (r1.(enabled := false), q1, true)
  }

  /** receive(). */
  function Receive(r: Receiver, q: seq<Datagram>): (Receiver, seq<Datagram>, Option<Payload>) {
    if !r.headerReceived || q == [] then (r, q, None)
    else (r.(headerReceived := false, enabled := true), q[1..],
          Some(Payload(Fit(q[0].bytes, r.header.data, 0), Fit(q[0].fds, r.header.fds, 0))))
  }

  lemma ReceiveDataDatagram(p: Payload)
    ensures Fit(DataDatagram(p).bytes, HeaderOf(p).data, 0) == Wire(p).data
    ensures Fit(DataDatagram(p).fds, HeaderOf(p).fds, 0) == Wire(p).fds
  {
  }

  /** A payload crosses unchanged exactly when its sizes fit the header's fields. */
  lemma WireIsPayloadIff(p: Payload)
    ensures Wire(p) == p <==> |p.data| < U32 && |p.fds| < 256
  {
    if Wire(p) == p {
      assert |p.data[..HeaderOf(p).data]| == |p.data| && |p.fds[..HeaderOf(p).fds]| == |p.fds|;
    }
  }

  // --- What a stream of datagrams delivers, whoever sent it.

  /** The payload made of a datagram that is received under a header. */
  function Delivery(h: Header, d: Datagram): Payload {
    Payload(Fit(d.bytes, h.data, 0), Fit(d.fds, h.fds, 0))
  }

  /** Datagrams are taken in turn as a header and as the data for it. */
  datatype Taken = Taken(header: Header, headerReceived: bool, got: seq<Payload>)

  function Take(t: Taken, d: Datagram): Taken
    requires t.header.fds < 256
  {
    if t.headerReceived then t.(headerReceived := false, got := t.got + [Delivery(t.header, d)])
    else t.(headerReceived := true, header := ReadHeader(t.header, d))
  }

  /** What has been made of a stream, from the header that the receiver was left with at the start. */
  function TakeAll(first: Header, ds: seq<Datagram>): (t: Taken)
    requires first.fds < 256
    ensures t.header.fds < 256
    decreases |ds|
  {
    if ds == [] then Taken(first, false, []) else Take(TakeAll(first, ds[..|ds| - 1]), ds[|ds| - 1])
  }

  function TakeMore(t: Taken, ds: seq<Datagram>): (r: Taken)
    requires t.header.fds < 256
    ensures r.header.fds < 256
    decreases |ds|
  {
    if ds == [] then t else TakeMore(Take(t, ds[0]), ds[1..])
  }

  lemma TakeAllSnoc(first: Header, ds: seq<Datagram>, d: Datagram)
    requires first.fds < 256
    ensures TakeAll(first, ds + [d]) == Take(TakeAll(first, ds), d)
  {
    assert (ds + [d])[..|ds|] == ds;
  }

  lemma {:induction false} TakeAllAppend(first: Header, ds: seq<Datagram>, es: seq<Datagram>)
    requires first.fds < 256
    ensures TakeAll(first, ds + es) == TakeMore(TakeAll(first, ds), es)
    decreases |es|
  {
    hide TakeAll, Take;
    if es == [] {
      assert ds + es == ds;
    } else {
      TakeAllSnoc(first, ds, es[0]);
      assert ds + es == (ds + [es[0]]) + es[1..];
      TakeAllAppend(first, ds + [es[0]], es[1..]);
    }
  }

  lemma {:induction false} TakeMoreKeeps(t: Taken, ds: seq<Datagram>)
    requires t.header.fds < 256
    ensures t.got <= TakeMore(t, ds).got
    decreases |ds|
  {
    if ds != [] {
      TakeMoreKeeps(Take(t, ds[0]), ds[1..]);
    }
  }

  // --- One direction of a channel, the two sends of a payload being separate steps.

  /** A payload whose header went out; its data follows unless that send fails. */
  datatype Sent = Sent(p: Payload, whole: bool)

  /** left is what the socket held when it was bound, and first the header the receiver had then. wire is all it
      has held since, sent and got what was sent and received since; half is a sender between its two sends.
      signals counts the readyRead signals since the last payload was received. */
  datatype Link = Link(bound: bool, receiver: Receiver, queue: seq<Datagram>, half: bool,
                       first: Header, left: seq<Datagram>, wire: seq<Datagram>, sent: seq<Sent>, got: seq<Payload>,
                       signals: nat)

  const FRESH := Link(true, IDLE, [], false, Header(0, 0), [], [], [], [], 0)

  datatype Event =
    | SendsHeader(p: Payload)
    | SendsData
    | LosesData
    | DataReady
    | Reads
    | Closes
    | Binds(left: seq<Datagram>)

  predicate Enabled(l: Link, e: Event) {
    match e
    case SendsHeader(p) => l.bound && !l.half && HeaderOf(p) != Header(0, 0)
    case SendsData => l.bound && l.half && l.sent != []
    case LosesData => l.half && l.sent != []
    case DataReady => l.bound && l.receiver.enabled && l.queue != [] && l.receiver.header.fds < 256
    case Reads => true
    case Closes => true
    case Binds(_) => !l.bound
  }

  function Arrive(l: Link, d: Datagram): Link {
    l.(queue := l.queue + [d], wire := l.wire + [d])
  }

  function Next(l: Link, e: Event): Link
    requires Enabled(l, e)
  {
    match e
    case SendsHeader(p) => Arrive(l, HeaderDatagram(p)).(sent := l.sent + [Sent(p, true)], half := true)
    case SendsData => Arrive(l, DataDatagram(l.sent[|l.sent| - 1].p)).(half := false)
    case LosesData =>
      var n := |l.sent| - 1;
      l.(sent := l.sent[n := l.sent[n].(whole := false)], half := false)
    case DataReady =>
      var (r, q, readyRead) := OnData(l.receiver, l.queue);
      l.(receiver := r, queue := q, signals := l.signals + if readyRead then 1 else 0)
    case Reads =>
      if !l.bound then l
      else
        var (r, q, p) := Receive(l.receiver, l.queue);
        l.(receiver := r, queue := q, got := if p.Some? then l.got + [p.value] else l.got,
           signals := if p.Some? then 0 else l.signals)
    case Closes => l.(bound := false, receiver := l.receiver.(headerReceived := false, enabled := true), signals := 0)
    case Binds(left) =>
      Link(true, Receiver(false, l.receiver.header, true), left, false, l.receiver.header, left, left, [], [], 0)
  }

  predicate IsRun(ls: seq<Link>, es: seq<Event>) {
    && |ls| == |es| + 1 && ls[0] == FRESH
    && forall i | 0 <= i < |es| :: Enabled(ls[i], es[i]) && ls[i + 1] == Next(ls[i], es[i])
  }

  /** The datagrams of what was sent. */
  function Stream(ss: seq<Sent>): seq<Datagram> {
    if ss == [] then []
    else
      var n := |ss| - 1;
      Stream(ss[..n]) + [HeaderDatagram(ss[n].p)] + if ss[n].whole then [DataDatagram(ss[n].p)] else []
  }

  /** Data that a sender still owes. */
  function Owed(l: Link): seq<Datagram> {
    if l.half && l.sent != [] then [DataDatagram(l.sent[|l.sent| - 1].p)] else []
  }

  /** The socket has held what it held at first, and what was sent since. */
  predicate SendsOk(l: Link) {
    && (l.half ==> l.sent != [] && l.sent[|l.sent| - 1].whole)
    && l.left + Stream(l.sent) == l.wire + Owed(l)
  }

  /** Receiver, queue and payloads are what the stream makes them, whatever was lost of it. */
  predicate TakesOk(l: Link) {
    && l.receiver.header.fds < 256 && l.first.fds < 256
    && (l.bound ==>
          && |l.queue| <= |l.wire| && l.wire[|l.wire| - |l.queue|..] == l.queue
          && TakeAll(l.first, l.wire[..|l.wire| - |l.queue|]) == Taken(l.receiver.header, l.receiver.headerReceived, l.got)
          && (!l.receiver.enabled ==> l.receiver.headerReceived && l.queue != []))
  }

  predicate Inv(l: Link) {
    SendsOk(l) && TakesOk(l)
  }

  lemma StreamSnoc(ss: seq<Sent>, x: Sent)
    ensures Stream(ss + [x]) == Stream(ss) + [HeaderDatagram(x.p)] + if x.whole then [DataDatagram(x.p)] else []
  {
    assert (ss + [x])[..|ss|] == ss;
  }

  /** A datagram more changes nothing for the receiver. */
  lemma ArriveKeeps(l: Link, d: Datagram)
    requires TakesOk(l)
    ensures TakesOk(Arrive(l, d))
  {
    var l' := Arrive(l, d);
    if l.bound {
      assert l'.wire[..|l'.wire| - |l'.queue|] == l.wire[..|l.wire| - |l.queue|];
      assert l'.wire[|l'.wire| - |l'.queue|..] == l'.queue;
    }
    hide TakeAll;
  }

  lemma HeaderKeeps(l: Link, p: Payload)
    requires Inv(l) && Enabled(l, SendsHeader(p))
    ensures Inv(Next(l, SendsHeader(p)))
  {
    var l' := Next(l, SendsHeader(p));
    ArriveKeeps(l, HeaderDatagram(p));
    assert TakesOk(l');
    hide TakesOk;
    StreamSnoc(l.sent, Sent(p, true));
    assert Owed(l) == [] && Owed(l') == [DataDatagram(p)];
    hide Stream, HeaderDatagram, DataDatagram, HeaderOf;
    var h, d := [HeaderDatagram(p)], [DataDatagram(p)];
    assert l.left + Stream(l.sent) == l.wire;
    assert l.left + (Stream(l.sent) + h + d) == (l.wire + h) + d;
  }

  lemma DataKeeps(l: Link)
    requires Inv(l) && Enabled(l, SendsData)
    ensures Inv(Next(l, SendsData))
  {
    ArriveKeeps(l, DataDatagram(l.sent[|l.sent| - 1].p));
    var l' := Next(l, SendsData);
    assert TakesOk(l') && Owed(l') == [] && l'.wire == l.wire + Owed(l) && l'.left == l.left && l'.sent == l.sent;
    hide TakesOk, Stream, Owed, Next, Enabled;
    assert l'.wire + [] == l'.wire;
  }

  lemma LossKeeps(l: Link)
    requires Inv(l) && Enabled(l, LosesData)
    ensures Inv(Next(l, LosesData))
  {
    hide HeaderDatagram, DataDatagram, HeaderOf, Stream, TakeAll;
    var l', n := Next(l, LosesData), |l.sent| - 1;
    assert TakesOk(l');
    hide TakesOk;
    LastChanges(l.sent, l'.sent[n]);
    StreamSnoc(l.sent[..n], l.sent[n]);
    StreamSnoc(l.sent[..n], l'.sent[n]);
    CutEnd(l.left, Stream(l'.sent), Owed(l), l.wire);
  }

  lemma LastChanges(ss: seq<Sent>, x: Sent)
    requires ss != []
    ensures var n := |ss| - 1; ss == ss[..n] + [ss[n]] && ss[n := x] == ss[..n] + [x]
  {
  }

  lemma CutEnd(a: seq<Datagram>, b: seq<Datagram>, c: seq<Datagram>, d: seq<Datagram>)
    requires a + (b + c) == d + c
    ensures a + b == d
  {
    assert a + (b + c) == (a + b) + c;
    assert |a + b| == |d|;
    assert a + b == ((a + b) + c)[..|d|] && d == (d + c)[..|d|];
  }

  /** Taking the first datagram of the queue is the next step of the stream. */
  lemma TakeKeeps(l: Link)
    requires TakesOk(l) && l.bound && l.queue != []
    ensures
      var n := |l.wire| - |l.queue|;
      && l.wire[n + 1..] == l.queue[1..]
      && TakeAll(l.first, l.wire[..n + 1])
         == Take(Taken(l.receiver.header, l.receiver.headerReceived, l.got), l.queue[0])
  {
    var n := |l.wire| - |l.queue|;
    assert l.wire[n..][0] == l.queue[0];
    assert l.wire[..n + 1] == l.wire[..n] + [l.queue[0]];
    TakeAllSnoc(l.first, l.wire[..n], l.queue[0]);
  }

  lemma ReadyKeeps(l: Link)
    requires TakesOk(l) && Enabled(l, DataReady)
    ensures TakesOk(Next(l, DataReady))
  {
    hide TakeAll, ReadHeader, Fit;
    TakeKeeps(l);
    var next := Next(l, DataReady);
    assert next.queue == if l.receiver.headerReceived then l.queue else l.queue[1..];
    assert |l.wire| - |l.queue[1..]| == |l.wire| - |l.queue| + 1;
  }

  lemma ReadsKeeps(l: Link)
    requires TakesOk(l)
    ensures TakesOk(Next(l, Reads))
  {
    hide TakeAll, ReadHeader, Fit;
    if l.bound && l.queue != [] {
      TakeKeeps(l);
    }
  }

  lemma NextKeeps(l: Link, e: Event)
    requires Inv(l) && Enabled(l, e)
    ensures Inv(Next(l, e))
  {
    match e
    case SendsHeader(p) => HeaderKeeps(l, p);
    case SendsData => DataKeeps(l);
    case LosesData => LossKeeps(l);
    case DataReady =>
      ReadyKeeps(l);
      assert SendsOk(Next(l, e));
      hide TakesOk;
    case Reads =>
      ReadsKeeps(l);
      assert SendsOk(Next(l, e));
      hide TakesOk;
    case Closes =>
    case Binds(left) => assert left[..0] == [];
  }

  lemma {:induction false} RunKeeps(ls: seq<Link>, es: seq<Event>, k: nat)
    requires IsRun(ls, es) && k < |ls|
    ensures Inv(ls[k])
  {
    if k == 0 {
      assert FRESH.wire[..0] == [] && Owed(FRESH) == [];
    } else {
      RunKeeps(ls, es, k - 1);
      hide Inv, Next, Enabled;
      NextKeeps(ls[k - 1], es[k - 1]);
    }
  }

  /** In every run, whatever was lost: the payloads received since the socket was bound are a beginning of what its
    * datagrams make when taken in turn as header and data. */
  lemma ReceivedIsTaken(ls: seq<Link>, es: seq<Event>, k: nat)
    requires IsRun(ls, es) && k < |ls| && ls[k].bound
    ensures ls[k].first.fds < 256 && ls[k].got <= TakeAll(ls[k].first, ls[k].left + Stream(ls[k].sent)).got
  {
    RunKeeps(ls, es, k);
    hide IsRun, Inv, Stream, TakeAll;
    TakenSoFar(ls[k]);
  }

  lemma TakenSoFar(l: Link)
    requires Inv(l) && l.bound
    ensures l.first.fds < 256 && l.got <= TakeAll(l.first, l.left + Stream(l.sent)).got
  {
    var n := |l.wire| - |l.queue|;
    var taken := l.wire[..n];
    assert l.wire == taken + l.queue;
    hide Stream, TakeAll, Owed;
    Associates(taken, l.queue, Owed(l));
    TakeAllAppend(l.first, taken, l.queue + Owed(l));
    TakeMoreKeeps(TakeAll(l.first, taken), l.queue + Owed(l));
  }

  // --- Streams of whole payloads, and streams in which data was lost.

  function Whole(ps: seq<Payload>): seq<Sent> {
    seq(|ps|, i requires 0 <= i < |ps| => Sent(ps[i], true))
  }

  function WireAll(ps: seq<Payload>): (w: seq<Payload>)
    ensures |w| == |ps| && forall i | 0 <= i < |ps| :: w[i] == Wire(ps[i])
  {
    seq(|ps|, i requires 0 <= i < |ps| => Wire(ps[i]))
  }

  lemma StreamHead(x: Sent, ss: seq<Sent>)
    ensures Stream([x] + ss) == [HeaderDatagram(x.p)] + (if x.whole then [DataDatagram(x.p)] else []) + Stream(ss)
    decreases |ss|
  {
    hide HeaderDatagram, DataDatagram;
    if ss == [] {
      assert [x] + ss == [] + [x];
      StreamSnoc([], x);
    } else {
      var n := |ss| - 1;
      StreamHead(x, ss[..n]);
      assert [x] + ss == ([x] + ss[..n]) + [ss[n]] && ss == ss[..n] + [ss[n]];
      StreamSnoc([x] + ss[..n], ss[n]);
      StreamSnoc(ss[..n], ss[n]);
      hide Stream;
      var a := [HeaderDatagram(x.p)] + if x.whole then [DataDatagram(x.p)] else [];
      var b := [HeaderDatagram(ss[n].p)] + if ss[n].whole then [DataDatagram(ss[n].p)] else [];
      assert Stream(ss) == Stream(ss[..n]) + b;
      assert Stream([x] + ss) == (a + Stream(ss[..n])) + b == a + (Stream(ss[..n]) + b);
    }
  }

  /** A header and its data, received in step. */
  lemma TakePayload(t: Taken, p: Payload)
    requires t.header.fds < 256 && !t.headerReceived
    ensures Take(Take(t, HeaderDatagram(p)), DataDatagram(p)) == Taken(HeaderOf(p), false, t.got + [Wire(p)])
  {
    ReadHeaderDatagram(t.header, p);
    ReceiveDataDatagram(p);
  }

  function LastHeader(h: Header, ps: seq<Payload>): (r: Header)
    requires h.fds < 256
    ensures r.fds < 256
  {
    if ps == [] then h else HeaderOf(ps[|ps| - 1])
  }

  lemma Associates<T>(a: seq<T>, b: seq<T>, c: seq<T>)
    ensures (a + b) + c == a + (b + c)
  {
  }

  lemma WholeHead(ps: seq<Payload>)
    requires ps != []
    ensures Whole(ps) == [Sent(ps[0], true)] + Whole(ps[1..])
    ensures WireAll(ps) == [Wire(ps[0])] + WireAll(ps[1..])
  {
    hide Wire;
  }

  /** Received in step, whole payloads arrive as they are, cut to what their headers can count. */
  lemma {:induction false} TakeWhole(t: Taken, ps: seq<Payload>, rest: seq<Sent>)
    requires t.header.fds < 256 && !t.headerReceived
    ensures
      TakeMore(t, Stream(Whole(ps) + rest))
      == TakeMore(Taken(LastHeader(t.header, ps), false, t.got + WireAll(ps)), Stream(rest))
    decreases |ps|
  {
    hide Stream, Take, TakeMore, HeaderDatagram, DataDatagram, HeaderOf, Wire;
    if ps == [] {
      assert Whole(ps) + rest == rest && t.got + WireAll(ps) == t.got;
    } else {
      var t' := Taken(HeaderOf(ps[0]), false, t.got + [Wire(ps[0])]);
      WholeHead(ps);
      hide Whole, WireAll;
      Associates([Sent(ps[0], true)], Whole(ps[1..]), rest);
      StreamHead(Sent(ps[0], true), Whole(ps[1..]) + rest);
      TakePayload(t, ps[0]);
      TakeTwo(t, HeaderDatagram(ps[0]), DataDatagram(ps[0]), Stream(Whole(ps[1..]) + rest));
      TakeWhole(t', ps[1..], rest);
      Associates(t.got, [Wire(ps[0])], WireAll(ps[1..]));
    }
  }

  lemma TakeTwo(t: Taken, d: Datagram, e: Datagram, ds: seq<Datagram>)
    requires t.header.fds < 256
    ensures Take(t, d).header.fds < 256
    ensures TakeMore(t, [d] + [e] + ds) == TakeMore(Take(Take(t, d), e), ds)
  {
    var all := [d] + [e] + ds;
    assert all[1..] == [e] + ds && all[1..][1..] == ds;
    hide Take;
  }

  /** What arrives for a payload whose data was lost: the next header, under its own. */
  function Misread(h: Header, next: Payload): Payload {
    Delivery(h, HeaderDatagram(next))
  }

  lemma TakeOne(t: Taken, d: Datagram, ds: seq<Datagram>)
    requires t.header.fds < 256
    ensures TakeMore(t, [d] + ds) == TakeMore(Take(t, d), ds)
  {
    assert ([d] + ds)[1..] == ds;
    hide Take;
  }

  /** What arrives for payloads that are received out of step: each as the bytes of its header, in a size that
    * the data before it makes. */
  function GarbledBy(h: Header, ps: seq<Payload>): (r: seq<Payload>)
    requires h.fds < 256
    ensures |r| == |ps|
    decreases |ps|
  {
    if ps == [] then []
    else [Misread(h, ps[0])] + GarbledBy(ReadHeader(h, DataDatagram(ps[0])), ps[1..])
  }

  /** The header the receiver holds after these payloads, read from their data. */
  function HeaderBy(h: Header, ps: seq<Payload>): (r: Header)
    requires h.fds < 256
    ensures r.fds < 256
    decreases |ps|
  {
    if ps == [] then h else HeaderBy(ReadHeader(h, DataDatagram(ps[0])), ps[1..])
  }

  lemma {:induction false} GarbledAt(h: Header, ps: seq<Payload>, i: nat)
    requires h.fds < 256 && i < |ps|
    ensures GarbledBy(h, ps)[i] == Misread(HeaderBy(h, ps[..i]), ps[i])
    decreases i
  {
    if i > 0 {
      GarbledAt(ReadHeader(h, DataDatagram(ps[0])), ps[1..], i - 1);
      assert ps[..i][1..] == ps[1..][..i - 1];
    }
  }

  /** One payload received out of step. */
  lemma TakeGarbled(t: Taken, p: Payload, ds: seq<Datagram>)
    requires t.header.fds < 256 && t.headerReceived
    ensures
      TakeMore(t, [HeaderDatagram(p)] + [DataDatagram(p)] + ds)
      == TakeMore(Taken(ReadHeader(t.header, DataDatagram(p)), true, t.got + [Misread(t.header, p)]), ds)
  {
    hide ReadHeader, HeaderDatagram, DataDatagram, TakeMore;
    TakeTwo(t, HeaderDatagram(p), DataDatagram(p), ds);
  }

  lemma GarbledHead(h: Header, ps: seq<Payload>)
    requires h.fds < 256 && ps != []
    ensures
      var h' := ReadHeader(h, DataDatagram(ps[0]));
      && h'.fds < 256
      && GarbledBy(h, ps) == [Misread(h, ps[0])] + GarbledBy(h', ps[1..]) && HeaderBy(h, ps) == HeaderBy(h', ps[1..])
  {
  }

  /** Holding a header when the next one comes, the receiver garbles every payload, and still holds a header at
    * the end of each. */
  lemma {:induction false} TakeOutOfStep(t: Taken, ps: seq<Payload>, rest: seq<Sent>)
    requires t.header.fds < 256 && t.headerReceived
    ensures
      TakeMore(t, Stream(Whole(ps) + rest))
      == TakeMore(Taken(HeaderBy(t.header, ps), true, t.got + GarbledBy(t.header, ps)), Stream(rest))
    decreases |ps|
  {
    hide Stream, TakeMore, HeaderDatagram, DataDatagram, Misread, ReadHeader;
    if ps == [] {
      assert Whole(ps) + rest == rest && t.got + GarbledBy(t.header, ps) == t.got;
    } else {
      var p := ps[0];
      GarbledHead(t.header, ps);
      hide GarbledBy, HeaderBy;
      var t' := Taken(ReadHeader(t.header, DataDatagram(p)), true, t.got + [Misread(t.header, p)]);
      assert Whole(ps) + rest == [Sent(p, true)] + (Whole(ps[1..]) + rest);
      StreamHead(Sent(p, true), Whole(ps[1..]) + rest);
      TakeGarbled(t, p, Stream(Whole(ps[1..]) + rest));
      TakeOutOfStep(t', ps[1..], rest);
      assert t'.got + GarbledBy(t'.header, ps[1..]) == t.got + GarbledBy(t.header, ps);
    }
  }

  /** All that a stream makes, for a receiver that starts in step. */
  function Delivered(first: Header, ss: seq<Sent>): seq<Payload>
    requires first.fds < 256
  {
    TakeMore(Taken(first, false, []), Stream(ss)).got
  }

  lemma DeliversWhole(first: Header, ps: seq<Payload>)
    requires first.fds < 256
    ensures Delivered(first, Whole(ps)) == WireAll(ps)
  {
    assert Whole(ps) + [] == Whole(ps) && [] + WireAll(ps) == WireAll(ps);
    TakeWhole(Taken(first, false, []), ps, []);
    assert Stream([]) == [];
    hide Stream, WireAll, Whole;
  }

  /** The stream of payloads of which one lost its data. */
  lemma TakeWithLoss(t: Taken, a: seq<Payload>, lost: Payload, rest: seq<Sent>)
    requires t.header.fds < 256 && !t.headerReceived
    ensures
      TakeMore(t, Stream(Whole(a) + ([Sent(lost, false)] + rest)))
      == TakeMore(Taken(HeaderOf(lost), true, t.got + WireAll(a)), Stream(rest))
  {
    var t' := Taken(LastHeader(t.header, a), false, t.got + WireAll(a));
    TakeWhole(t, a, [Sent(lost, false)] + rest);
    StreamHead(Sent(lost, false), rest);
    ReadHeaderDatagram(t'.header, lost);
    hide Stream, TakeMore, HeaderDatagram, ReadHeader;
    assert Stream([Sent(lost, false)] + rest) == [HeaderDatagram(lost)] + Stream(rest);
    TakeOne(t', HeaderDatagram(lost), Stream(rest));
  }

  lemma DeliversWithLoss(first: Header, a: seq<Payload>, lost: Payload, b: seq<Payload>)
    requires first.fds < 256
    ensures
      Delivered(first, Whole(a) + ([Sent(lost, false)] + Whole(b))) == WireAll(a) + GarbledBy(HeaderOf(lost), b)
  {
    assert Stream([]) == [];
    hide Stream, WireAll, Whole, GarbledBy, HeaderBy;
    var t := Taken(HeaderOf(lost), true, [] + WireAll(a));
    TakeWithLoss(Taken(first, false, []), a, lost, Whole(b));
    TakeOutOfStep(t, b, []);
    assert Whole(b) + [] == Whole(b) && [] + WireAll(a) == WireAll(a);
  }

  /** Another lost payload is received out of step, and those after it in step again. */
  lemma TakeAgain(t: Taken, again: Payload, c: seq<Payload>)
    requires t.header.fds < 256 && t.headerReceived
    ensures
      TakeMore(t, Stream([Sent(again, false)] + Whole(c))).got == t.got + [Misread(t.header, again)] + WireAll(c)
  {
    assert Stream([]) == [];
    StreamHead(Sent(again, false), Whole(c));
    TakeIsMisread(t, again);
    hide Stream, Take, WireAll, Whole, HeaderDatagram, Misread;
    var t' := Taken(t.header, false, t.got + [Misread(t.header, again)]);
    assert Stream([Sent(again, false)] + Whole(c)) == [HeaderDatagram(again)] + Stream(Whole(c));
    TakeOne(t, HeaderDatagram(again), Stream(Whole(c)));
    TakeWhole(t', c, []);
    assert Whole(c) + [] == Whole(c);
  }

  lemma DeliversWithTwoLosses(first: Header, a: seq<Payload>, lost: Payload, b: seq<Payload>, again: Payload, c: seq<Payload>)
    requires first.fds < 256
    ensures
      Delivered(first, Whole(a) + ([Sent(lost, false)] + (Whole(b) + ([Sent(again, false)] + Whole(c)))))
      == WireAll(a) + GarbledBy(HeaderOf(lost), b + [again]) + WireAll(c)
  {
    hide Stream, Take, TakeMore, WireAll, Whole, GarbledBy, HeaderBy, HeaderDatagram, Misread, HeaderOf;
    var rest := [Sent(again, false)] + Whole(c);
    TakeWithLoss(Taken(first, false, []), a, lost, Whole(b) + rest);
    var h, wires := HeaderOf(lost), [] + WireAll(a);
    TakeOutOfStep(Taken(h, true, wires), b, rest);
    TakeAgain(Taken(HeaderBy(h, b), true, wires + GarbledBy(h, b)), again, c);
    GarbledSnoc(h, b, again);
    Regroup(wires, GarbledBy(h, b), [Misread(HeaderBy(h, b), again)], WireAll(c));
    assert wires == WireAll(a);
  }

  lemma Regroup(a: seq<Payload>, b: seq<Payload>, c: seq<Payload>, d: seq<Payload>)
    ensures a + b + c + d == a + (b + c) + d
  {
  }

  lemma TakeIsMisread(t: Taken, p: Payload)
    requires t.header.fds < 256 && t.headerReceived
    ensures Take(t, HeaderDatagram(p)) == Taken(t.header, false, t.got + [Misread(t.header, p)])
  {
  }

  lemma {:induction false} GarbledSnoc(h: Header, b: seq<Payload>, p: Payload)
    requires h.fds < 256
    ensures GarbledBy(h, b + [p]) == GarbledBy(h, b) + [Misread(HeaderBy(h, b), p)]
    decreases |b|
  {
    hide Misread, ReadHeader, DataDatagram;
    if b == [] {
      assert b + [p] == [p] && [p][1..] == [];
    } else {
      assert (b + [p])[1..] == b[1..] + [p];
      GarbledSnoc(ReadHeader(h, DataDatagram(b[0])), b[1..], p);
    }
  }

  // --- What a run delivers.

  /** In every run, whatever was lost: what a receiver got from a socket that was empty when it was bound is a
    * beginning of what the stream makes. */
  lemma ReceivedIsDelivered(ls: seq<Link>, es: seq<Event>, k: nat)
    requires IsRun(ls, es) && k < |ls| && ls[k].bound && ls[k].left == []
    ensures ls[k].first.fds < 256 && ls[k].got <= Delivered(ls[k].first, ls[k].sent)
  {
    ReceivedIsTaken(ls, es, k);
    var l := ls[k];
    assert l.left + Stream(l.sent) == [] + Stream(l.sent);
    TakeAllAppend(l.first, [], Stream(l.sent));
    hide Stream;
  }

  /** As long as no data send fails: the payloads received are, in order and one for one, the payloads sent, each
    * cut to what its header can count. */
  lemma ReceivedIsPrefix(ls: seq<Link>, es: seq<Event>, k: nat, ps: seq<Payload>)
    requires IsRun(ls, es) && k < |ls| && ls[k].bound && ls[k].left == []
    requires ls[k].sent == Whole(ps)
    ensures ls[k].got <= WireAll(ps)
    ensures (forall p <- ps :: |p.data| < U32 && |p.fds| < 256) ==> ls[k].got <= ps
  {
    hide IsRun, Delivered, Whole;
    ReceivedIsDelivered(ls, es, k);
    DeliversWhole(ls[k].first, ps);
    if forall p <- ps :: |p.data| < U32 && |p.fds| < 256 {
      forall i | 0 <= i < |ps|
        ensures WireAll(ps)[i] == ps[i]
      {
        WireIsPayloadIff(ps[i]);
      }
      assert WireAll(ps) == ps;
    }
  }

  /** One data send fails. The payloads before it are received as they were sent. What arrives in its place is the
    * payload itself iff that is what its header makes of the next header; and every later payload arrives as the
    * bytes of its header. */
  lemma LostDataMisframes(ls: seq<Link>, es: seq<Event>, k: nat, a: seq<Payload>, lost: Payload, b: seq<Payload>)
    requires IsRun(ls, es) && k < |ls| && ls[k].bound && ls[k].left == []
    requires ls[k].sent == Whole(a) + ([Sent(lost, false)] + Whole(b))
    ensures ls[k].got <= WireAll(a) + GarbledBy(HeaderOf(lost), b)
    ensures
      |ls[k].got| > |a| ==>
        && b != []
        && (ls[k].got[|a|] == Wire(lost) <==>
              Wire(lost) == Payload(Fit(HeaderBytes(HeaderOf(b[0])), HeaderOf(lost).data, 0),
                                    Fit([], HeaderOf(lost).fds, 0)))
    ensures
      forall i: nat | |a| + i < |ls[k].got| ::
        i < |b| && ls[k].got[|a| + i] == Misread(HeaderBy(HeaderOf(lost), b[..i]), b[i])
  {
    hide *;
    ReceivedIsDelivered(ls, es, k);
    DeliversWithLoss(ls[k].first, a, lost, b);
    GarbledPrefix(ls[k].got, a, lost, b);
  }

  /** What a beginning of these deliveries looks like. */
  lemma GarbledPrefix(got: seq<Payload>, a: seq<Payload>, lost: Payload, b: seq<Payload>)
    requires got <= WireAll(a) + GarbledBy(HeaderOf(lost), b)
    ensures
      |got| > |a| ==>
        && b != []
        && (got[|a|] == Wire(lost) <==>
              Wire(lost) == Payload(Fit(HeaderBytes(HeaderOf(b[0])), HeaderOf(lost).data, 0),
                                    Fit([], HeaderOf(lost).fds, 0)))
    ensures
      forall i: nat | |a| + i < |got| :: i < |b| && got[|a| + i] == Misread(HeaderBy(HeaderOf(lost), b[..i]), b[i])
  {
    hide GarbledBy, WireAll, Wire, Fit, HeaderOf;
    var bad := GarbledBy(HeaderOf(lost), b);
    forall i: nat | |a| + i < |got|
      ensures i < |b| && got[|a| + i] == Misread(HeaderBy(HeaderOf(lost), b[..i]), b[i])
    {
      GarbledAt(HeaderOf(lost), b, i);
      assert (WireAll(a) + bad)[|a| + i] == bad[i];
    }
    if |got| > |a| {
      assert got[|a| + 0] == Misread(HeaderBy(HeaderOf(lost), b[..0]), b[0]) == Misread(HeaderOf(lost), b[0]);
    }
  }

  /** A second data send that fails puts the receiver back in step: of everything between the two, headers are
    * delivered, and one payload fewer than was sent; from there on payloads arrive as they are sent. */
  lemma SecondLossRealigns(ls: seq<Link>, es: seq<Event>, k: nat,
                           a: seq<Payload>, lost: Payload, b: seq<Payload>, again: Payload, c: seq<Payload>)
    requires IsRun(ls, es) && k < |ls| && ls[k].bound && ls[k].left == []
    requires ls[k].sent == Whole(a) + ([Sent(lost, false)] + (Whole(b) + ([Sent(again, false)] + Whole(c))))
    ensures ls[k].got <= WireAll(a) + GarbledBy(HeaderOf(lost), b + [again]) + WireAll(c)
  {
    hide IsRun, Delivered, Whole, GarbledBy, WireAll;
    ReceivedIsDelivered(ls, es, k);
    DeliversWithTwoLosses(ls[k].first, a, lost, b, again, c);
  }

  /** A disabled notifier means that a header is held and its data waits: the next read delivers what the stream
    * makes next, and enables the notifier. When nothing was lost, that is the next payload. */
  lemma DisabledMeansReady(ls: seq<Link>, es: seq<Event>, k: nat)
    requires IsRun(ls, es) && k < |ls| && ls[k].bound && !ls[k].receiver.enabled
    ensures
      var l, l' := ls[k], Next(ls[k], Reads);
      && l'.receiver.enabled && |l'.got| == |l.got| + 1 && l.got <= l'.got && l.first.fds < 256
      && l'.got <= TakeAll(l.first, l.left + Stream(l.sent)).got
    ensures forall ps: seq<Payload> | ls[k].left == [] && ls[k].sent == Whole(ps) ::
      |ls[k].got| < |ps| && Next(ls[k], Reads).got == ls[k].got + [Wire(ps[|ls[k].got|])]
  {
    RunKeeps(ls, es, k);
    var es' := es[..k] + [Reads];
    var ls' := ls[..k + 1] + [Next(ls[k], Reads)];
    var l, l' := ls[k], ls'[k + 1];
    assert l'.receiver.enabled && |l'.got| == |l.got| + 1 && l.got <= l'.got && l'.bound;
    assert l'.left == l.left && l'.sent == l.sent && l'.first == l.first;
    ExtendsRun(ls, es, k, Reads);
    hide IsRun, Inv, Next;
    ReceivedIsTaken(ls', es', k + 1);
    forall ps: seq<Payload> | l.left == [] && l.sent == Whole(ps)
      ensures |l.got| < |ps| && l'.got == l.got + [Wire(ps[|l.got|])]
    {
      ReceivedIsPrefix(ls', es', k + 1, ps);
      assert l'.got[|l.got|] == WireAll(ps)[|l.got|];
    }
  }

  lemma ExtendsRun(ls: seq<Link>, es: seq<Event>, k: nat, e: Event)
    requires IsRun(ls, es) && k < |ls| && Enabled(ls[k], e)
    ensures IsRun(ls[..k + 1] + [Next(ls[k], e)], es[..k] + [e])
  {
    hide Next, Enabled;
  }

  /** What the notifier does: it reads a header unless one is held, and signals and disables itself iff data waits
    * for the header. */
  lemma OnDataSignals(r: Receiver, q: seq<Datagram>)
    requires q != [] && r.header.fds < 256
    ensures
      var (after, left, readyRead) := OnData(r, q);
      && after.headerReceived && left == (if r.headerReceived then q else q[1..])
      && after.header == (if r.headerReceived then r.header else ReadHeader(r.header, q[0]))
      && (readyRead <==> left != [])
      && after.enabled == (if readyRead then false else r.enabled)
  {
  }

  lemma NextSignals(l: Link, e: Event)
    requires Enabled(l, e) && l.signals == if l.receiver.enabled then 0 else 1
    ensures Next(l, e).signals == if Next(l, e).receiver.enabled then 0 else 1
  {
  }

  /** In every run the notifier is disabled iff readyRead has been emitted since the last payload was received, and
    * then once: the receiver is always told before the notifier falls silent, and not again before it reads. */
  lemma {:induction false} SignalledIff(ls: seq<Link>, es: seq<Event>, k: nat)
    requires IsRun(ls, es) && k < |ls|
    ensures ls[k].signals == if ls[k].receiver.enabled then 0 else 1
    decreases k
  {
    if k > 0 {
      SignalledIff(ls, es, k - 1);
      NextSignals(ls[k - 1], es[k - 1]);
    }
  }

  /** Once the queue is drained and no payload is half sent, everything has been received if nothing was lost. */
  lemma AllDelivered(ls: seq<Link>, es: seq<Event>, k: nat, ps: seq<Payload>)
    requires IsRun(ls, es) && k < |ls| && ls[k].bound && ls[k].left == [] && ls[k].sent == Whole(ps)
    requires ls[k].queue == [] && !ls[k].half
    ensures ls[k].got == WireAll(ps)
  {
    RunKeeps(ls, es, k);
    var l := ls[k];
    assert l.wire[..|l.wire|] == l.wire && l.wire == [] + Stream(l.sent);
    TakeAllAppend(l.first, [], Stream(l.sent));
    DeliversWhole(l.first, ps);
    hide IsRun, Stream, WireAll, Whole;
  }

  // --- Concrete cases.

  /** 256 descriptors are counted as none. */
  lemma TooManyDescriptors()
    ensures var p := Payload([], seq(256, _ => 0)); Wire(p) == Payload([], []) && Wire(p) != p
  {
  }

  /** The data of the payload 9 is lost. The receiver waits for one byte under its header and gets the first byte of
    * the header of the payload 2, which says that there is one byte. */
  lemma LostDataExample() returns (ls: seq<Link>, es: seq<Event>)
    ensures IsRun(ls, es) && |es| == 5
    ensures es == [SendsHeader(Payload([9], [])), LosesData, SendsHeader(Payload([2], [])), DataReady, Reads]
    ensures ls[5].sent == [Sent(Payload([9], []), false), Sent(Payload([2], []), true)] && ls[5].got == [Payload([1], [])]
  {
    es := [SendsHeader(Payload([9], [])), LosesData, SendsHeader(Payload([2], [])), DataReady, Reads];
    ls := [FRESH, Example(1), Example(2), Example(3), Example(4), Example(5)];
    ExampleSends();
    ExampleReceives();
    hide Next, Enabled;
  }

  /** The link after k events. */
  function Example(k: nat): Link
    requires 0 < k <= 5
  {
    var p, p' := Payload([9], []), Payload([2], []);
    var h, h' := HeaderDatagram(p), HeaderDatagram(p');
    var l2 := FRESH.(queue := [h], wire := [h], sent := [Sent(p, false)]);
    var l3 := l2.(queue := [h, h'], wire := [h, h'], sent := [Sent(p, false), Sent(p', true)], half := true);
    if k == 1 then l2.(sent := [Sent(p, true)], half := true)
    else if k == 2 then l2
    else if k == 3 then l3
    else if k == 4 then l3.(receiver := Receiver(true, Header(1, 0), false), queue := [h'], signals := 1)
    else l3.(receiver := Receiver(false, Header(1, 0), true), queue := [], got := [Payload([1], [])], signals := 0)
  }

  lemma ExampleSends()
    ensures
      var e := SendsHeader(Payload([9], [])); Enabled(FRESH, e) && Next(FRESH, e) == Example(1)
    ensures Enabled(Example(1), LosesData) && Next(Example(1), LosesData) == Example(2)
    ensures
      var e := SendsHeader(Payload([2], [])); Enabled(Example(2), e) && Next(Example(2), e) == Example(3)
  {
    hide HeaderDatagram;
    assert HeaderOf(Payload([9], [])).data == 1 && HeaderOf(Payload([2], [])).data == 1;
  }

  lemma ExampleReceives()
    ensures Enabled(Example(3), DataReady) && Next(Example(3), DataReady) == Example(4)
    ensures Enabled(Example(4), Reads) && Next(Example(4), Reads) == Example(5)
  {
    var p, h, h' := Payload([9], []), HeaderDatagram(Payload([9], [])), HeaderDatagram(Payload([2], []));
    assert HeaderOf(p) == Header(1, 0) && [h, h'][1..] == [h'];
    ReadHeaderDatagram(IDLE.header, p);
    FirstByteIsOne();
    hide HeaderDatagram, HeaderOf, ReadHeader, Fit;
  }

  lemma FirstByteIsOne()
    ensures var h := HeaderDatagram(Payload([2], [])); Fit(h.bytes, 1, 0) == [1] && Fit(h.fds, 0, 0) == []
  {
    var bytes := HeaderBytes(HeaderOf(Payload([2], [])));
    assert EncodeU32(1)[0] == 1;
    assert bytes[0] == 1;
  }
}
