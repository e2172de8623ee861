/** The socket object: its fields change as the functions of IpcFraming say. */
module IpcUnixSocket {
  import opened Bytes
  import opened IpcFraming

  /** One direction of a socket pair: datagrams in order, none lost or merged. */
  class Channel {
    var queue: seq<Datagram>

    constructor ()
      ensures queue == []
    {
      queue := [];
    }
  }

  /** What the kernel makes of one call: success, or an error. */
  type Outcome = int

  class IPCUnixSocket {
    var fd: int
    var headerReceived: bool
    var header: Header
    /** The notifier, when there is one: whether it is enabled. */
    var notifier: Option<bool>

    const inbound: Channel
    const outbound: Channel

    ghost predicate Valid()
      reads this
    {
      && inbound != outbound && header.fds < 256
      && (fd != -1 <==> notifier.Some?)
      && (fd == -1 ==> !headerReceived)
    }

    function View(): Receiver
      requires notifier.Some?
      reads this
    {
      Receiver(headerReceived, header, notifier.value)
    }

    constructor (inbound: Channel, outbound: Channel)
      requires inbound != outbound
      ensures Valid() && !headerReceived && fd == -1
      ensures this.inbound == inbound && this.outbound == outbound
    {
      fd := -1;
      headerReceived := false;
      header := Header(0, 0);
      notifier := None;
      this.inbound := inbound;
      this.outbound := outbound;
    }

    method Bind(fd: int) returns (ret: int)
      requires Valid() && fd != -1
      modifies this
      ensures Valid()
      ensures if old(this.fd) != -1 then ret == -EINVAL && unchanged(this)
              else ret == 0 && this.fd == fd && View() == Receiver(false, old(header), true)
    {
      if this.fd != -1 { return -EINVAL; }
      this.fd := fd;
      notifier := Some(true);
      ret := 0;
    }

    method Close()
      requires Valid()
      modifies this
      ensures Valid() && fd == -1 && !headerReceived && header == old(header)
    {
      if fd == -1 { return; }
      notifier := None;
      fd := -1;
      headerReceived := false;
    }

    /** Two sends, either of which may fail; a failure of the second leaves the header behind. */
    method Send(p: Payload, headerOutcome: Outcome, dataOutcome: Outcome) returns (ret: int)
      requires Valid() && headerOutcome <= 0 && dataOutcome <= 0
      modifies outbound
      ensures ret == if fd == -1 then -ENOTCONN else if HeaderOf(p) == Header(0, 0) then -EINVAL
                     else if headerOutcome < 0 then headerOutcome else dataOutcome
      ensures outbound.queue == old(outbound.queue)
        + (if fd == -1 || HeaderOf(p) == Header(0, 0) || headerOutcome < 0 then []
           else if dataOutcome < 0 then [HeaderDatagram(p)] else [HeaderDatagram(p), DataDatagram(p)])
    {
      if fd == -1 { return -ENOTCONN; }
      var hdr := Header(|p.data| % U32, |p.fds| % 256);
      if hdr.data == 0 && hdr.fds == 0 { return -EINVAL; }
      if headerOutcome < 0 { return headerOutcome; }
      outbound.queue := outbound.queue + [Datagram(HeaderBytes(hdr), [])];
      ret := SendData(p.data, hdr.data, p.fds, hdr.fds, dataOutcome);
    }

    method SendData(buffer: seq<byte>, length: nat, fds: seq<int>, num: nat, outcome: Outcome) returns (ret: int)
      requires length <= |buffer| && num <= |fds| && outcome <= 0
      modifies outbound
      ensures ret == outcome
      ensures outbound.queue == old(outbound.queue) + if outcome < 0 then [] else [Datagram(buffer[..length], fds[..num])]
    {
      if outcome < 0 { return outcome; }
      outbound.queue := outbound.queue + [Datagram(buffer[..length], fds[..num])];
      ret := 0;
    }

    /** The system call either takes the first datagram, or fails on an empty queue. */
    method Receive() returns (ret: int, payload: Option<Payload>)
      requires Valid()
      modifies this, inbound
      ensures Valid()
      ensures fd == old(fd) && (fd == -1 ==> ret == -ENOTCONN && payload == None && unchanged(inbound) && unchanged(this))
      ensures fd != -1 ==>
        && (View(), inbound.queue, payload) == IpcFraming.Receive(old(View()), old(inbound.queue))
        && ret == if payload.Some? then 0 else -EAGAIN
    {
      if fd == -1 { return -ENOTCONN, None; }
      if !headerReceived { return -EAGAIN, None; }
      var err, data, fds := RecvData(header.data, header.fds);
      if err < 0 { return err, None; }
      headerReceived := false;
      notifier := Some(true);
      return 0, Some(Payload(data, fds));
    }

    method RecvData(length: nat, num: nat) returns (ret: int, data: seq<byte>, fds: seq<int>)
      modifies inbound
      ensures old(inbound.queue) == [] ==> ret == -EAGAIN && unchanged(inbound)
      ensures old(inbound.queue) != [] ==>
        && ret == 0 && inbound.queue == old(inbound.queue)[1..]
        && data == Fit(old(inbound.queue)[0].bytes, length, 0) && fds == Fit(old(inbound.queue)[0].fds, num, 0)
    {
      data, fds := [], [];
      if inbound.queue == [] { return -EAGAIN, data, fds; }
      var d := inbound.queue[0];
      inbound.queue := inbound.queue[1..];
      return 0, Fit(d.bytes, length, 0), Fit(d.fds, num, 0);
    }

    /** The slot of the notifier, called when it is enabled and data is there. True is the readyRead signal. */
    method DataNotifier() returns (readyRead: bool)
      requires Valid() && notifier == Some(true) && inbound.queue != []
      modifies this, inbound
      ensures Valid() && notifier.Some?
      ensures (View(), inbound.queue, readyRead) == OnData(old(View()), old(inbound.queue))
      ensures headerReceived && (readyRead <==> inbound.queue != []) && (readyRead <==> notifier == Some(false))
    {
      if !headerReceived {
        header := ReadHeader(header, inbound.queue[0]);
        inbound.queue := inbound.queue[1..];
        headerReceived := true;
      }
      if inbound.queue == [] { return false; }
      notifier := Some(false);
      readyRead := true;
    }
  }
}
