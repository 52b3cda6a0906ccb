/** One connection: reading, answering, and gather-writing the answer in as many parts as the kernel takes. */
module Connections {
  import opened Options
  import opened CInts
  import opened Sockets
  import opened Tasks
  import opened Buffers
  import opened Framing
  import opened Requests
  import opened Responses
  import opened Talks

  class HttpConn {
    const sock: Socket
    const readBuff: Buffer
    const writeBuff: Buffer
    const request: HttpRequest
    const response: HttpResponse
    var iov0Base: nat      // position in the vector of writeBuff
    var iov0Len: nat
    var iov1Base: nat      // position in the mapped file
    var iov1Len: nat
    var iovCnt: nat
    ghost var arrived: string
    ghost var texts: seq<string>
    ghost var served: seq<Target>
    ghost var intact: bool

    ghost predicate Valid()
      reads this, readBuff, writeBuff
    {
      readBuff != writeBuff && readBuff.Valid() && writeBuff.Valid()
    }

    /** The bytes of the file that are still to be sent. */
    ghost function FileLeft(): (s: string)
      reads this, response
      ensures |s| <= iov1Len
    {
      var file := response.mmFile;
      if iovCnt == 2 && file.Some? && iov1Base + iov1Len <= |file.value|
      then file.value[iov1Base..iov1Base + iov1Len] else ""
    }

    ghost function Remaining(): string
      reads this, readBuff, writeBuff, response
      requires Valid()
    {
      writeBuff.Contents() + FileLeft()
    }

    /** The vectors that writev is given describe exactly what is left to send of the buffer and of the file. */
    ghost predicate Sending()
      reads this, readBuff, writeBuff, response
      requires Valid()
    {
      && (iovCnt == 1 || iovCnt == 2)
      && iov0Len == writeBuff.ReadableBytes()
      && (iov0Len > 0 ==> iov0Base == writeBuff.readPos)
      && (iovCnt == 2 && iov1Len > 0 ==> response.mmFile.Some? && iov1Base + iov1Len == |response.mmFile.value|)
    }

    /** What the second vector holds that is not to be sent: a length left over when it was not set for this reply. */
    ghost function Stale(): nat
      reads this, response
    {
      iov1Len - |FileLeft()|
    }

    ghost function View(): Talk
      reads this, readBuff, writeBuff, request, response, sock
      requires Valid()
    {
      Talk(arrived, sock.incoming, readBuff.Contents(), texts, served, request.View(),
           Remaining(), sock.wire, sock.ends, Stale(), intact)
    }

    /** The vectors of a new connection are whatever the memory holds. */
    constructor (sock: Socket)
      requires sock.wire == "" && sock.ends == []
      ensures Valid() && this.sock == sock && response.mmFile == None
      ensures View() == NewTalk(sock.incoming, FRESH, iov1Len)
      ensures fresh(readBuff) && fresh(writeBuff) && fresh(request) && fresh(response)
    {
      this.sock := sock;
      readBuff := new Buffer(1024);
      writeBuff := new Buffer(1024);
      request := new HttpRequest();
      response := new HttpResponse();
      var base0: nat, len0: nat, base1: nat, len1: nat, count: nat :| true;
      iov0Base, iov0Len, iov1Base, iov1Len, iovCnt := base0, len0, base1, len1, count;
      arrived, texts, served, intact := sock.incoming, [], [], true;
    }

    /**
     Init, when accept returns the descriptor again: the stream is new and the buffers are emptied,
     but the vectors keep what they had.
     */
    method Init(bytes: string)
      requires Valid() && response.mmFile == None
      modifies this`arrived, this`texts, this`served, this`intact, readBuff, writeBuff, sock
      ensures Valid() && View() == NewTalk(bytes, old(request.View()), iov1Len)
    {
      sock.wire, sock.incoming, sock.peerClosed, sock.ends := "", bytes, false, [];
      writeBuff.RetrieveAll();
      readBuff.RetrieveAll();
      arrived, texts, served, intact := bytes, [], [], true;
    }

    /** Close unmaps the file; the vectors keep what they had. */
    method Close()
      requires Valid()
      modifies response`mmFile
      ensures Valid() && response.mmFile == None && Dropped(old(View()), View())
      ensures View().unsent == writeBuff.Contents() && View().stale == iov1Len
    {
      ghost var left := FileLeft();
      response.UnmapFile();
      assert writeBuff.Contents() + "" == writeBuff.Contents();
    }

    /** The client sends. */
    method Receive(bytes: string)
      requires Valid()
      modifies this`arrived, sock`incoming
      ensures Valid() && View() == Arrive(old(View()), bytes) && (old(Sending()) ==> Sending())
    {
      sock.incoming := sock.incoming + bytes;
      arrived := arrived + bytes;
    }

    function ToWriteBytes(): int
      reads this
    {
      ToInt(iov0Len + iov1Len)
    }

    /** Reads until the kernel has nothing more, an edge-triggered reader's duty. */
    method Read(saved: int) returns (len: int, saveErrno: int)
      requires Valid()
      modifies readBuff, sock`incoming, sock`ends
      ensures Valid() && len <= 0 && sock.ends == old(sock.ends) + [if len < 0 then saveErrno else 0]
      ensures readBuff.Contents() + sock.incoming == old(readBuff.Contents()) + old(sock.incoming)
      ensures old(readBuff.Contents()) <= readBuff.Contents()
      ensures len == 0 ==> saveErrno == saved && sock.peerClosed && sock.incoming == ""
      ensures saveErrno == EAGAIN && saved != EAGAIN ==> len < 0 && sock.incoming == ""
    {
      saveErrno := saved;
      len := 1;
      while len > 0
        invariant Valid() && (len > 0 ==> saveErrno == saved)
        invariant sock.ends == if len > 0 then old(sock.ends) else old(sock.ends) + [if len < 0 then saveErrno else 0]
        invariant readBuff.Contents() + sock.incoming == old(readBuff.Contents()) + old(sock.incoming)
        invariant |old(readBuff.Contents())| <= |readBuff.Contents()|
        invariant len == 0 ==> saveErrno == saved && sock.peerClosed
        invariant len == 0 || (len < 0 && saveErrno == EAGAIN) ==> sock.incoming == ""
        decreases |sock.incoming|, len > 0
      {
        len, saveErrno := readBuff.ReadFd(sock, saveErrno);
      }
      LongerPart(readBuff.Contents(), sock.incoming, old(readBuff.Contents()), old(sock.incoming));
    }

    /** The bytes the vectors gather: the unsent part of the buffer, then of the file. */
    method Gather() returns (data: string)
      requires Valid() && Sending()
      ensures data == Remaining()
    {
      var first := if iov0Len > 0 then writeBuff.buffer[iov0Base..iov0Base + iov0Len] else "";
      var second := if iovCnt == 2 && iov1Len > 0 then response.mmFile.value[iov1Base..iov1Base + iov1Len] else "";
      data := first + second;
    }

    /** Moves the vectors past len bytes, the buffer's first. */
    method Advance(len: nat)
      requires Valid() && Sending() && 0 < len <= |Remaining()|
      modifies this`iov0Base, this`iov0Len, this`iov1Base, this`iov1Len, writeBuff
      ensures Valid() && Sending() && Stale() == old(Stale())
      ensures Remaining() == old(Remaining())[len..]
    {
      if len > iov0Len {
        AdvanceIntoFile(len);
      } else {
        TakenFromFirst(writeBuff.Contents(), FileLeft(), len);
        iov0Base := iov0Base + len;
        iov0Len := iov0Len - len;
        writeBuff.Retrieve(len);
      }
    }

    /** The kernel took the rest of the buffer and something of the file. */
    method AdvanceIntoFile(len: nat)
      requires Valid() && Sending() && iov0Len < len <= |Remaining()|
      modifies this`iov0Len, this`iov1Base, this`iov1Len, writeBuff
      ensures Valid() && Sending() && Stale() == old(Stale())
      ensures Remaining() == old(Remaining())[len..]
    {
      TakenPastFirst(writeBuff.Contents(), FileLeft(), len);
      iov1Base := iov1Base + (len - iov0Len);
      iov1Len := iov1Len - (len - iov0Len);
      if iov0Len > 0 {
        writeBuff.RetrieveAll();
        iov0Len := 0;
      }
    }

    /**
     Writes until the kernel takes no more. However the bytes are split, what was sent and what remains
     is what there was; a result of 0 means that all of it is sent.
     */
    method Write(saved: int) returns (len: int, saveErrno: int)
      requires Valid() && Sending()
      modifies this`iov0Base, this`iov0Len, this`iov1Base, this`iov1Len, writeBuff, sock`wire, sock`ends
      ensures Valid() && Sending() && len <= 0 && Stale() == old(Stale())
      ensures sock.ends == old(sock.ends) + [if len < 0 then saveErrno else 0]
      ensures sock.wire + Remaining() == old(sock.wire) + old(Remaining()) && old(sock.wire) <= sock.wire
      ensures len == 0 ==> Remaining() == ""
    {
      saveErrno := saved;
      len := 1;
      ghost var whole, left := Remaining(), Remaining();
      while true
        invariant Valid() && Sending() && left == Remaining() && Stale() == old(Stale())
        invariant sock.ends == old(sock.ends)
        invariant sock.wire + left == old(sock.wire) + whole && old(sock.wire) <= sock.wire
        decreases |left|
      {
        var errno;
        len, errno := WriteOnce();
        if len <= 0 {
          saveErrno := errno;
          break;
        }
        if iov0Len + iov1Len == 0 {
          break;
        }
        Moved(sock.wire[..|sock.wire| - len], left, len);
        Advance(len);
        left := left[len..];
      }
    }

    /** One writev: what the kernel took is on the wire; the vectors are moved afterwards. */
    method WriteOnce() returns (len: int, errno: int)
      requires Valid() && Sending()
      modifies sock`wire, sock`ends
      ensures Valid() && Sending() && len <= |Remaining()| && (len == 0 ==> Remaining() == "")
      ensures len <= 0 ==> sock.wire == old(sock.wire) && sock.ends == old(sock.ends) + [if len < 0 then errno else 0]
      ensures len > 0 ==>
        sock.wire == old(sock.wire) + Remaining()[..len] && sock.ends == old(sock.ends) && iov0Len + iov1Len > 0
    {
      var data := Gather();
      len, errno := sock.Writev(data);
      Moved(old(sock.wire), data, 0);
    }

    /** A write, as what it does to the talk: the kernel took the first n of the unsent bytes. */
    method SendOn() returns (ret: int, errno: int, ghost n: nat)
      requires Valid() && Sending()
      modifies this`iov0Base, this`iov0Len, this`iov1Base, this`iov1Len, writeBuff, sock`wire, sock`ends
      ensures Valid() && Sending() && ret <= 0 && n <= |old(Remaining())|
      ensures View() == Sent(old(View()), n, if ret < 0 then errno else 0)
      ensures ret == 0 ==> n == |old(Remaining())|
      ensures ToWriteBytes() == 0 <==> CountsAsZero(|Remaining()|, Stale())
    {
      hide CountsAsZero, ToInt, Sent;
      ghost var s := View();
      ret, errno := Write(0);
      n := SentIs(s, View(), if ret < 0 then errno else 0);
      CountIs();
    }

    method MakeReply(ok: bool, t: Target)
      requires Valid() && Servable(t)
      modifies writeBuff, response
      ensures Valid()
      ensures response.mmFile == Served(t) && (Served(t).Some? ==> response.fileSize == |Served(t).value| > 0)
      ensures writeBuff.Contents() + (if Served(t).Some? then Served(t).value else "")
           == old(writeBuff.Contents()) + Wire(ReplyTo(ok, request.View(), t))
    {
      if ok {
        response.Init(request.m_path, request.IsKeepAlive(), 200);
      } else {
        response.Init(request.m_path, false, 400);
      }
      response.MakeResponse(writeBuff, t);
    }

    /**
     Points the vectors at the buffer and, when there is one, at the file; whole is both. Without a
     file the second vector keeps its length, but is not given to writev.
     */
    method SetVectors(ghost whole: string)
      requires Valid() && (response.mmFile.Some? ==> response.fileSize == |response.mmFile.value| > 0)
      requires writeBuff.Contents() + (if response.mmFile.Some? then response.mmFile.value else "") == whole
      modifies this`iov0Base, this`iov0Len, this`iov1Base, this`iov1Len, this`iovCnt
      ensures Sending() && Remaining() == whole
      ensures Stale() == if response.mmFile.Some? then 0 else old(iov1Len)
      ensures iov1Len == if response.mmFile.Some? then |response.mmFile.value| else old(iov1Len)
    {
      iov0Base := writeBuff.readPos;
      iov0Len := writeBuff.ReadableBytes();
      iovCnt := 1;
      if response.fileSize > 0 && response.mmFile.Some? {
        iov1Base := 0;
        iov1Len := response.fileSize;
        iovCnt := 2;
        assert response.mmFile.value[0..iov1Len] == response.mmFile.value;
      }
    }

    /** The second half of Process, for the text that was parsed: the vectors hold the reply behind what was unsent. */
    method AnswerRequest(ok: bool, t: Target, ghost text: string)
      requires Valid() && Servable(t)
      modifies this`iov0Base, this`iov0Len, this`iov1Base, this`iov1Len, this`iovCnt, this`texts, this`served,
               writeBuff, response
      ensures Valid() && Sending()
      ensures Remaining() == old(writeBuff.Contents()) + Wire(ReplyTo(ok, request.View(), t))
      ensures Stale() == if Served(t).Some? then 0 else old(iov1Len)
      ensures iov1Len == if Served(t).Some? then |Served(t).value| else old(iov1Len)
      ensures texts == old(texts) + [text] && served == old(served) + [t]
    {
      hide ReplyTo, Wire;
      MakeReply(ok, t);
      SetVectors(old(writeBuff.Contents()) + Wire(ReplyTo(ok, request.View(), t)));
      texts := texts + [text];
      served := served + [t];
    }

    /** Parses what was received and makes the reply to it; without anything received only the request is reset. */
    method Process(t: Target) returns (answered: bool)
      requires Valid() && Servable(t)
      modifies this`iov0Base, this`iov0Len, this`iov1Base, this`iov1Len, this`iovCnt, this`texts, this`served,
               readBuff`readPos, writeBuff, request, response
      ensures Valid()
      ensures answered <==> old(readBuff.Contents()) != ""
      ensures !answered ==> View() == old(View()).(request := FRESH)
      ensures answered ==> Sending() && Replied(old(View()), t, View())
      ensures answered && Served(t).Some? ==> iov1Len == |Served(t).value|
    {
      hide ReplyTo, Wire, Consume, Replied;
      ghost var s := View();
      request.Init();
      if readBuff.ReadableBytes() <= 0 {
        return false;
      }
      var ok := request.ParseRequest(readBuff);
      assert Outcome(ok, request.View(), readBuff.Contents()) == Parse(s.received);
      AnswerRequest(ok, t, s.received);
      NothingBefore(old(writeBuff.Contents()), old(FileLeft()), Wire(ReplyTo(ok, request.View(), t)));
      RepliedIs(s, t, View());
      return true;
    }

    /** Makes the next reply, if there is a request, and says which way to wait. */
    method OnProcess(t: Target) returns (action: Action)
      requires Valid() && Servable(t)
      modifies this`iov0Base, this`iov0Len, this`iov1Base, this`iov1Len, this`iovCnt, this`texts, this`served,
               readBuff`readPos, writeBuff, request, response
      ensures Valid() && action == if old(readBuff.Contents()) == "" then ArmIn else ArmOut
      ensures action == ArmIn ==> View() == old(View()).(request := FRESH)
      ensures action == ArmOut ==> Sending() && Replied(old(View()), t, View())
      ensures action == ArmOut && Served(t).Some? ==> iov1Len == |Served(t).value|
    {
      var answered := Process(t);
      action := if answered then ArmOut else ArmIn;
    }

    /** A read that ends for lack of data is processed; end of file and other errors close. */
    method OnRead(t: Target) returns (action: Action, ghost errno: int)
      requires Valid() && Servable(t)
      modifies this, readBuff, writeBuff, request, response, sock`incoming, sock`ends
      ensures Valid() && ReadStep(old(View()), t, errno, action, View())
      ensures sock.ends == old(sock.ends) + [errno] && (action == Action.Close <==> errno != EAGAIN)
      ensures action == ArmIn ==> readBuff.Contents() == "" && sock.incoming == ""
      ensures action == ArmOut ==> Sending()
      ensures action == ArmOut && Served(t).Some? ==> iov1Len == |Served(t).value|
    {
      ghost var s := View();
      var ret, readErrno := Read(0);
      errno := readErrno;
      if ret <= 0 && readErrno != EAGAIN {
        return Action.Close, errno;
      }
      assert readBuff.Contents() == s.received + s.incoming by {
        assert readBuff.Contents() + "" == readBuff.Contents();
      }
      action := OnProcess(t);
    }

    /** Sends on, and when the code counts nothing left, goes on to the next request or closes. */
    method OnWrite(t: Target) returns (action: Action, ghost n: nat, ghost ret: int, ghost errno: int)
      requires Valid() && Sending() && Servable(t)
      modifies this, readBuff, writeBuff, request, response, sock`wire, sock`ends
      ensures Valid() && (action == ArmOut ==> Sending())
      ensures WriteStep(old(View()), t, n, ret, errno, action, View())
    {
      hide Replied, WriteStep, CountsAsZero;
      ghost var s := View();
      var written, writeErrno, taken := SendOn();
      ret, errno, n := written, writeErrno, taken;
      if ToWriteBytes() == 0 {
        if request.IsKeepAlive() {
          action := GoOn(t, s, n, ret, errno);
          return;
        }
      } else if written < 0 {
        if writeErrno == EAGAIN {
          Stopped(s, t, n, ret, errno);
          return ArmOut, n, ret, errno;
        }
      }
      action := Action.Close;
      Stopped(s, t, n, ret, errno);
    }

    /** The next request, after n bytes of what s had to send: the code takes them for all. */
    method GoOn(t: Target, ghost s: Talk, ghost n: nat, ghost ret: int, ghost errno: int) returns (action: Action)
      requires Valid() && Servable(t) && n <= |s.unsent| && ret <= 0 && (ret == 0 ==> n == |s.unsent|)
      requires View() == Sent(s, n, if ret < 0 then errno else 0)
      requires CountsAsZero(|Remaining()|, Stale()) && KeepAlive(s.request)
      modifies this, readBuff`readPos, writeBuff, request, response
      ensures Valid() && (action == ArmOut ==> Sending())
      ensures WriteStep(s, t, n, ret, errno, action, View())
    {
      hide Replied, WriteStep, CountsAsZero;
      intact := intact && n == |s.unsent|;
      assert View() == Sent(s, n, if ret < 0 then errno else 0).(intact := s.intact && n == |s.unsent|);
      action := OnProcess(t);
      WentOn(s, t, n, ret, errno, action, View());
    }

    /** The int count is 0 exactly when unsent and stale bytes together are a multiple of 2^32. */
    lemma CountIs()
      requires Valid() && Sending()
      ensures ToWriteBytes() == 0 <==> CountsAsZero(|Remaining()|, Stale())
    {
      ToIntIsZeroIff(iov0Len + iov1Len);
      assert |Remaining()| + Stale() == iov0Len + iov1Len;
    }

    /** A completed write of a reply with a file leaves both vectors empty. */
    lemma NothingLeft()
      requires Valid() && Sending() && Remaining() == ""
      ensures iov0Len == 0 && iov1Len == Stale() && (iovCnt == 2 ==> iov1Len == 0)
    {
      assert |Remaining()| == iov0Len + |FileLeft()|;
    }
  }

  /**
   A connection over any run of readiness events in edge-triggered mode, with bytes arriving before
   each: it takes exactly the steps of a talk, one an event, and so keeps what the run promises.
   */
  method ServeEvents(conn: HttpConn, arrivals: seq<string>, targets: seq<Target>)
    returns (last: Action, ghost talks: seq<Talk>, ghost actions: seq<Action>)
    requires conn.Valid() && AtRest(conn.View()) && |arrivals| == |targets|
    requires forall t | t in targets :: Servable(t)
    modifies conn, conn.readBuff, conn.writeBuff, conn.request, conn.response, conn.sock
    ensures conn.Valid() && Events(talks, actions, arrivals, targets)
    ensures talks[0] == old(conn.View()) && talks[|actions|] == conn.View()
    ensures last == Before(actions, |actions|) && (last != Close ==> |actions| == |targets|)
    ensures Waiting(conn.View(), last) && Extends(old(conn.View()), conn.View(), targets)
    ensures conn.arrived == old(conn.arrived) + Joined(arrivals[..|actions|])
    ensures actions != [] && last == ArmIn ==> conn.readBuff.Contents() == ""
    ensures last == ArmIn && conn.intact ==>
      var replies := Replies(conn.texts, conn.served); ReadStream(conn.sock.wire, |replies|) == Some((replies, ""))
    ensures old(Fits(conn.View())) && (forall t | t in targets :: Short(t)) ==> conn.intact
  {
    last, talks, actions := ArmIn, [conn.View()], [];
    var k := 0;
    while k < |targets| && last != Close
      invariant 0 <= k <= |targets| && conn.Valid() && (last == ArmOut ==> conn.Sending())
      invariant |actions| == k && Events(talks, actions, arrivals, targets) && last == Before(actions, k)
      invariant talks[0] == old(conn.View()) && talks[k] == conn.View()
    {
      ghost var s := conn.View();
      ghost var before := last;
      last := ServeEvent(conn, last, arrivals[k], targets[k]);
      EventsGrow(talks, actions, arrivals, targets, last, conn.View());
      talks, actions := talks + [conn.View()], actions + [last];
      k := k + 1;
    }
    EventsKeep(talks, actions, arrivals, targets, k);
    if last == ArmIn && conn.intact {
      RestIsReadable(conn.View());
    }
  }

  /** One event, after some bytes arrived. */
  method ServeEvent(conn: HttpConn, before: Action, bytes: string, t: Target) returns (action: Action)
    requires conn.Valid() && before != Close && (before == ArmOut ==> conn.Sending()) && Servable(t)
    modifies conn, conn.readBuff, conn.writeBuff, conn.request, conn.response, conn.sock
    ensures conn.Valid() && (action == ArmOut ==> conn.Sending())
    ensures EventStep(old(conn.View()), before, bytes, t, action, conn.View())
  {
    conn.Receive(bytes);
    if before == ArmIn {
      ghost var errno;
      action, errno := conn.OnRead(t);
    } else {
      ghost var n, ret, errno;
      action, n, ret, errno := conn.OnWrite(t);
    }
  }

  lemma RepliedIs(s: Talk, t: Target, u: Talk)
    requires var o := Parse(s.received);
             && u == s.(received := o.rest, request := o.request, texts := s.texts + [s.received],
                        served := s.served + [t], unsent := u.unsent, stale := u.stale)
             && (s.unsent == "" ==>
                  u.unsent == Wire(ReplyTo(o.ok, o.request, t)) && u.stale == if Served(t).Some? then 0 else s.stale)
    ensures Replied(s, t, u)
  {
    hide ReplyTo, Wire, Parse;
  }

  lemma WentOn(s: Talk, t: Target, n: nat, ret: int, errno: int, action: Action, u: Talk)
    requires n <= |s.unsent| && ret <= 0 && (ret == 0 ==> n == |s.unsent|)
    requires CountsAsZero(|s.unsent| - n, s.stale) && KeepAlive(s.request)
    requires action == if s.received == "" then ArmIn else ArmOut
    requires var next := Sent(s, n, if ret < 0 then errno else 0).(intact := s.intact && n == |s.unsent|);
             if s.received == "" then u == next.(request := FRESH) else Replied(next, t, u)
    ensures WriteStep(s, t, n, ret, errno, action, u)
  {
    hide Replied;
  }

  lemma Stopped(s: Talk, t: Target, n: nat, ret: int, errno: int)
    requires n <= |s.unsent| && ret <= 0 && (ret == 0 ==> n == |s.unsent|)
    requires !CountsAsZero(|s.unsent| - n, s.stale) || !KeepAlive(s.request)
    ensures var counted := CountsAsZero(|s.unsent| - n, s.stale);
            WriteStep(s, t, n, ret, errno, if !counted && ret < 0 && errno == EAGAIN then ArmOut else Close,
                      Sent(s, n, if ret < 0 then errno else 0))
  {
  }

  lemma EventsGrow(talks: seq<Talk>, actions: seq<Action>, arrivals: seq<string>, targets: seq<Target>,
                   action: Action, u: Talk)
    requires Events(talks, actions, arrivals, targets)
    requires |actions| < |arrivals| && |actions| < |targets|
    requires EventStep(talks[|actions|], Before(actions, |actions|), arrivals[|actions|], targets[|actions|], action, u)
    ensures Events(talks + [u], actions + [action], arrivals, targets)
  {
    hide EventStep;
    forall k | 0 <= k <= |actions| ensures Before(actions + [action], k) == Before(actions, k) {
    }
  }

  lemma LongerPart(a: string, b: string, c: string, d: string)
    requires a + b == c + d && |c| <= |a|
    ensures c <= a
  {
    forall k | 0 <= k < |c| ensures a[k] == c[k] {
      assert (a + b)[k] == a[k] && (c + d)[k] == c[k];
    }
  }

  lemma Moved(before: string, data: string, n: nat)
    requires n <= |data|
    ensures before + data[..n] + data[n..] == before + data
    ensures before + "" == before
  {
  }

  lemma SentIs(s: Talk, u: Talk, end: int) returns (n: nat)
    requires u == s.(wire := u.wire, unsent := u.unsent, ends := s.ends + [end])
    requires u.wire + u.unsent == s.wire + s.unsent && s.wire <= u.wire
    ensures n <= |s.unsent| && u == Sent(s, n, end) && (u.unsent == "" ==> n == |s.unsent|)
  {
    n := |u.wire| - |s.wire|;
    FrontAndRest(s.wire, s.unsent, u.wire, u.unsent);
  }

  lemma FrontAndRest(a: string, b: string, c: string, d: string)
    requires c + d == a + b && a <= c
    ensures var n := |c| - |a|; n <= |b| && c == a + b[..n] && d == b[n..]
  {
    var n := |c| - |a|;
    assert c == (a + b)[..|c|] && d == (a + b)[|c|..];
  }

  lemma NothingBefore(buffer: string, file: string, reply: string)
    ensures buffer + file == "" ==> buffer + reply == reply && file == ""
  {
  }

  lemma TakenPastFirst(first: string, second: string, n: nat)
    requires |first| < n <= |first| + |second|
    ensures (first + second)[n..] == second[n - |first|..]
  {
  }

  lemma TakenFromFirst(first: string, second: string, n: nat)
    requires n <= |first|
    ensures (first + second)[n..] == first[n..] + second
  {
  }
}
