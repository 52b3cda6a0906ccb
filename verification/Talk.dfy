/**
 What a connection hears and says, as a value: the bytes that came in, the requests they are cut into,
 the replies, and the bytes sent. The steps say what one readiness event may do to it.
 */
module Talks {
  import opened Options
  import opened CInts
  import opened Sockets
  import opened Tasks
  import opened Text
  import opened Framing
  import opened Requests
  import opened Responses

  datatype Talk = Talk(
    arrived: string,      // history: every byte that came in
    incoming: string,     // of these, what the kernel still holds
    received: string,     // of these, what the read buffer holds
    texts: seq<string>,   // history: what each reply answers,
    served: seq<Target>,  // and what the file system said for it
    request: Request,
    unsent: string, wire: string,
    ends: seq<int>,       // history: how the kernel ended each round of reading or writing
    stale: nat,           // length in the second vector that stands for no bytes
    intact: bool)         // history: nothing unsent was ever taken for sent

  /** 200 and the client's wish on an accepted request, 400 and close on a rejected one; stat may change the code. */
  function ReplyTo(ok: bool, r: Request, t: Target): Message {
    Reply(if ok then 200 else 400, ok && KeepAlive(r), r.path, t)
  }

  function Answer(text: string, t: Target): Message {
    ReplyTo(Parse(text).ok, Parse(text).request, t)
  }

  function Replies(texts: seq<string>, served: seq<Target>): seq<Message>
    requires |texts| == |served|
  {
    if texts == [] then []
    else
      var n := |texts| - 1;
      Replies(texts[..n], served[..n]) + [Answer(texts[n], served[n])]
  }

  /** The bytes that the requests so far used up. */
  function Parsed(texts: seq<string>): string {
    if texts == [] then ""
    else
      var n := |texts| - 1;
      Parsed(texts[..n]) + Used(texts[n])
  }

  function LastRest(texts: seq<string>): string {
    if texts == [] then "" else Parse(texts[|texts| - 1]).rest
  }

  /** Each text is a stretch of what arrived that begins where the one before was used up, and extends what it left. */
  ghost predicate Linked(texts: seq<string>, arrived: string) {
    forall k | 0 <= k < |texts| :: Parsed(texts[..k]) + texts[k] <= arrived && LastRest(texts[..k]) <= texts[k]
  }

  /** Every byte that came in was used up by a request, is in the buffer, or is still with the kernel. */
  ghost predicate Divided(texts: seq<string>, arrived: string, received: string, incoming: string) {
    && arrived == Parsed(texts) + (received + incoming)
    && Linked(texts, arrived)
    && LastRest(texts) <= received
  }

  /** Every byte that came in is accounted for, and what was sent is a part of the replies. */
  ghost predicate Accounted(s: Talk) {
    && |s.texts| == |s.served|
    && Divided(s.texts, s.arrived, s.received, s.incoming)
    && (s.intact ==> s.wire <= WireAll(Replies(s.texts, s.served)))
  }

  /** Ready to make a reply: the wire is the replies so far, whole and in order. */
  ghost predicate AtRest(s: Talk) {
    Accounted(s) && (s.intact ==> s.unsent == "" && s.wire == WireAll(Replies(s.texts, s.served)))
  }

  /** Sent and unsent bytes together are the replies so far, and nothing else; the last was to the request at hand. */
  ghost predicate InFlow(s: Talk) {
    && Accounted(s) && s.texts != [] && s.request == Parse(s.texts[|s.texts| - 1]).request
    && (s.intact ==> s.wire + s.unsent == WireAll(Replies(s.texts, s.served)))
  }

  function NewTalk(arrived: string, request: Request, stale: nat): Talk {
    Talk(arrived, arrived, "", [], [], request, "", "", [], stale, true)
  }

  // ---------- steps ----------

  function Arrive(s: Talk, bytes: string): Talk {
    s.(arrived := s.arrived + bytes, incoming := s.incoming + bytes)
  }

  /** A reply to what was received. With nothing unsent before, it is all that is unsent then. */
  ghost predicate Replied(s: Talk, t: Target, u: Talk) {
    && u == s.(received := Parse(s.received).rest, request := Parse(s.received).request,
               texts := s.texts + [s.received], served := s.served + [t], unsent := u.unsent, stale := u.stale)
    && (s.unsent == "" ==> u.unsent == Wire(Answer(s.received, t)) && u.stale == if Served(t).Some? then 0 else s.stale)
  }

  /**
   A read event: everything is read and, if there is anything, answered; or the connection is closed,
   exactly when the last read ended for another reason than that there is nothing more.
   */
  ghost predicate ReadStep(s: Talk, t: Target, errno: int, action: Action, u: Talk) {
    var r := s.(ends := s.ends + [errno]);
    var all := s.received + s.incoming;
    match action
    case Close =>
      && errno != EAGAIN && u == r.(received := u.received, incoming := u.incoming)
      && u.received + u.incoming == all && s.received <= u.received
    case ArmIn => errno == EAGAIN && all == "" && u == r.(request := FRESH)
    case ArmOut => errno == EAGAIN && all != "" && Replied(r.(received := all, incoming := ""), t, u)
  }

  /** The int the code computes for what is left to write, with a stale length in the second vector. */
  predicate CountsAsZero(left: nat, stale: nat) {
    Wrapped(left + stale) == 0
  }

  /** After n bytes were sent, and the kernel took no more. */
  function Sent(s: Talk, n: nat, end: int): Talk
    requires n <= |s.unsent|
  {
    s.(wire := s.wire + s.unsent[..n], unsent := s.unsent[n..], ends := s.ends + [end])
  }

  /** A write event in which the kernel took n bytes and then gave ret and errno. */
  ghost predicate WriteStep(s: Talk, t: Target, n: nat, ret: int, errno: int, action: Action, u: Talk) {
    && n <= |s.unsent| && ret <= 0 && (ret == 0 ==> n == |s.unsent|)
    && var sent := Sent(s, n, if ret < 0 then errno else 0);
       if !CountsAsZero(|sent.unsent|, s.stale) then
         u == sent && action == if ret < 0 && errno == EAGAIN then ArmOut else Close
       else if !KeepAlive(s.request) then
         u == sent && action == Close
       else
         var next := sent.(intact := s.intact && n == |s.unsent|);
         if s.received == "" then u == next.(request := FRESH) && action == ArmIn
         else Replied(next, t, u) && action == ArmOut
  }

  /** Closing takes the file away; the vector keeps its length. */
  ghost predicate Dropped(s: Talk, u: Talk) {
    && u == s.(unsent := u.unsent, stale := u.stale)
    && u.unsent <= s.unsent && |u.unsent| + u.stale == |s.unsent| + s.stale
    && (u.stale == s.stale || s.stale == 0)
  }

  /** How the kernel ended the last round of reading or writing. */
  function Ended(s: Talk): int
    requires s.ends != []
  {
    s.ends[|s.ends| - 1]
  }

  // ---------- what the steps keep ----------

  lemma RepliesAppend(texts: seq<string>, served: seq<Target>, text: string, t: Target)
    requires |texts| == |served|
    ensures Replies(texts + [text], served + [t]) == Replies(texts, served) + [Answer(text, t)]
  {
    assert (texts + [text])[..|texts|] == texts && (served + [t])[..|texts|] == served;
  }

  /** One reply for each text, in order. */
  lemma {:induction false} RepliesAt(texts: seq<string>, served: seq<Target>, k: nat)
    requires |texts| == |served| && k < |texts|
    ensures |Replies(texts, served)| == |texts| && Replies(texts, served)[k] == Answer(texts[k], served[k])
    decreases |texts|
  {
    hide Answer;
    var n := |texts| - 1;
    if n > 0 {
      RepliesAt(texts[..n], served[..n], if k < n then k else 0);
    }
  }

  lemma RepliesAreFramed(texts: seq<string>, served: seq<Target>)
    requires |texts| == |served|
    ensures |Replies(texts, served)| == |texts|
    ensures forall k | 0 <= k < |texts| :: WellFramed(Replies(texts, served)[k])
  {
    hide Answer;
    forall k | 0 <= k < |texts| ensures |Replies(texts, served)| == |texts| && WellFramed(Replies(texts, served)[k]) {
      RepliesAt(texts, served, k);
      AnswerIsFramed(texts[k], served[k]);
    }
  }

  lemma AnswerIsFramed(text: string, t: Target)
    ensures WellFramed(Answer(text, t))
  {
    var o := Parse(text);
    RepliesAreWellFramed(if o.ok then 200 else 400, o.ok && KeepAlive(o.request), o.request.path, t);
  }

  /**
   What a client reads from a reply, whatever follows it: the status of what stat said and of its own request;
   keep-alive exactly when it asked for it; the type of its path; and the file, or the page for the code.
   */
  lemma AnswerTells(text: string, t: Target, rest: string)
    ensures var o, m := Parse(text), Answer(text, t);
            && ReadMessage(Wire(m) + rest) == Some((m, rest)) && m.head != []
            && (m.head[0] == "HTTP/1.1 404 Not Found" <==> t.stat.Missing? || t.stat.Directory?)
            && (m.head[0] == "HTTP/1.1 403 Forbidden" <==> t.stat.Regular? && !t.stat.othersRead)
            && (m.head[0] == "HTTP/1.1 200 OK" <==> t.stat.Regular? && t.stat.othersRead && o.ok)
            && (m.head[0] == "HTTP/1.1 400 Bad Request" <==> t.stat.Regular? && t.stat.othersRead && !o.ok)
            && FieldValue(m.head, "Connection") == Some(if KeepAlive(o.request) then "keep-alive" else "close")
            && FieldValue(m.head, "keep-alive") == (if KeepAlive(o.request) then Some("max=6, timeout=120") else None)
            && FieldValue(m.head, "Content-type") == Some(FileType(o.request.path))
            && m.body == if Served(t).Some? then Served(t).value else Page(CodeDigits(t, o.ok))
  {
    hide Parse, KeepAlive, Wire, ReadMessage, FieldValue, FileType, Head, Page, CodeDigits, ErrorBody;
    var o, m := Parse(text), Answer(text, t);
    AnswerIsFramed(text, t);
    MessageReadBack(m, rest);
    RejectedIsClosed(text);
    var keepAlive := o.ok && KeepAlive(o.request);
    StatusTells(o.ok, keepAlive, o.request.path, t);
    FieldsTell(KnownCode(Code(if o.ok then 200 else 400, t.stat)), keepAlive, o.request.path, |m.body|);
    if Served(t) == None {
      PageTells(o.ok, keepAlive, o.request.path, t);
    }
  }

  lemma RejectedIsClosed(text: string)
    ensures !Parse(text).ok ==> !KeepAlive(Parse(text).request)
  {
    if !Parse(text).ok && text != "" {
      var line := text[..FindCrlf(text)];
      var t := TakeLine(FRESH, line, |text|);
      if t.Some? && FindCrlf(text) < |text| {
        OnlyFirstLineRejects(t.value, text[FindCrlf(text) + 2..]);
      }
    }
  }

  /** A client that reads by announced length recovers every reply that was sent in full, and nothing between them. */
  lemma ClientReadsReplies(texts: seq<string>, served: seq<Target>)
    requires |texts| == |served|
    ensures ReadStream(WireAll(Replies(texts, served)), |texts|) == Some((Replies(texts, served), ""))
  {
    var replies := Replies(texts, served);
    hide Answer;
    RepliesAreFramed(texts, served);
    StreamReadBack(replies, "");
    assert WireAll(replies) + "" == WireAll(replies);
  }

  lemma RestIsReadable(s: Talk)
    requires AtRest(s) && s.intact
    ensures var replies := Replies(s.texts, s.served);
            s.wire == WireAll(replies) && ReadStream(s.wire, |replies|) == Some((replies, ""))
  {
    RepliesAreFramed(s.texts, s.served);
    ClientReadsReplies(s.texts, s.served);
  }

  lemma PrefixGrows(a: string, b: string, c: string)
    requires a <= b
    ensures a <= b + c
  {
  }

  lemma LinkedGrows(texts: seq<string>, arrived: string, more: string)
    requires Linked(texts, arrived)
    ensures Linked(texts, arrived + more)
  {
    forall k | 0 <= k < |texts| ensures Parsed(texts[..k]) + texts[k] <= arrived + more {
      PrefixGrows(Parsed(texts[..k]) + texts[k], arrived, more);
    }
  }

  lemma LinkedAppends(texts: seq<string>, text: string, arrived: string)
    requires Linked(texts, arrived) && Parsed(texts) + text <= arrived && LastRest(texts) <= text
    ensures Linked(texts + [text], arrived)
  {
    var longer := texts + [text];
    forall k | 0 <= k < |longer|
      ensures Parsed(longer[..k]) + longer[k] <= arrived && LastRest(longer[..k]) <= longer[k]
    {
      assert longer[..k] == texts[..k];
      assert k == |texts| ==> texts[..k] == texts;
    }
  }

  lemma ParsedAppends(texts: seq<string>, text: string)
    ensures Parsed(texts + [text]) + Parse(text).rest == Parsed(texts) + text
    ensures LastRest(texts + [text]) == Parse(text).rest
  {
    assert (texts + [text])[..|texts|] == texts;
    UsedThenRest(text);
    assert Parsed(texts) + Used(text) + Parse(text).rest == Parsed(texts) + (Used(text) + Parse(text).rest);
  }

  lemma ArriveKeeps(s: Talk, bytes: string)
    requires Accounted(s)
    ensures Accounted(Arrive(s, bytes))
    ensures AtRest(s) ==> AtRest(Arrive(s, bytes))
    ensures InFlow(s) ==> InFlow(Arrive(s, bytes))
  {
    DividedGrows(s.texts, s.arrived, s.received, s.incoming, bytes);
  }

  lemma DividedGrows(texts: seq<string>, arrived: string, received: string, incoming: string, bytes: string)
    requires Divided(texts, arrived, received, incoming)
    ensures Divided(texts, arrived + bytes, received, incoming + bytes)
  {
    LinkedGrows(texts, arrived, bytes);
    Regroup(Parsed(texts), received + incoming, bytes);
    Regroup(received, incoming, bytes);
  }

  /** Reading moves the border between what is received and what is incoming. */
  lemma BorderMoves(s: Talk, u: Talk)
    requires Accounted(s) && u == s.(received := u.received, incoming := u.incoming, ends := u.ends)
    requires u.received + u.incoming == s.received + s.incoming && s.received <= u.received
    ensures Accounted(u)
    ensures AtRest(s) ==> AtRest(u)
  {
  }

  lemma DividedNext(texts: seq<string>, arrived: string, received: string, incoming: string)
    requires Divided(texts, arrived, received, incoming)
    ensures Divided(texts + [received], arrived, Parse(received).rest, incoming)
  {
    ParsedAppends(texts, received);
    Regroup(Parsed(texts), received, incoming);
    Regroup(Parsed(texts + [received]), Parse(received).rest, incoming);
    LinkedAppends(texts, received, arrived);
  }

  /** The next reply follows on the wire. */
  lemma RepliedFlows(s: Talk, t: Target, u: Talk)
    requires AtRest(s) && Replied(s, t, u)
    ensures InFlow(u)
  {
    hide Answer, Divided, Wire, WireAll;
    DividedNext(s.texts, s.arrived, s.received, s.incoming);
    RepliesAppend(s.texts, s.served, s.received, t);
    WireAllAppends(Replies(s.texts, s.served), Answer(s.received, t));
    if s.intact {
      PrefixGrows(s.wire, WireAll(Replies(s.texts, s.served)), Wire(Answer(s.received, t)));
    }
  }

  lemma ReadKeeps(s: Talk, t: Target, errno: int, action: Action, u: Talk)
    requires AtRest(s) && ReadStep(s, t, errno, action, u)
    ensures if action == ArmOut then InFlow(u) else AtRest(u)
  {
    match action
    case Close => BorderMoves(s, u);
    case ArmIn =>
    case ArmOut =>
      var all := s.(received := s.received + s.incoming, incoming := "", ends := s.ends + [errno]);
      assert all.received + "" == all.received;
      BorderMoves(s, all);
      RepliedFlows(all, t, u);
  }

  /**
   A read event closes exactly when the kernel ended it otherwise than with EAGAIN, end of file included. It
   waits to read on exactly when there is nothing to answer, and else answers all there is.
   */
  lemma ReadClosesIff(s: Talk, t: Target, errno: int, action: Action, u: Talk)
    requires ReadStep(s, t, errno, action, u)
    ensures u.ends != [] && (action == Close <==> Ended(u) != EAGAIN)
    ensures action == ArmIn <==> Ended(u) == EAGAIN && s.received + s.incoming == ""
    ensures action == ArmOut ==>
      u.incoming == "" && u.texts == s.texts + [s.received + s.incoming] && u.served == s.served + [t]
    ensures action != ArmOut ==> u.texts == s.texts && u.wire == s.wire && u.unsent == s.unsent
  {
    hide Answer, Parse, Wire;
  }

  /**
   As long as the count fits, a write event closes exactly when all was sent and the client does not want to be
   kept alive, or not all was sent, or an old length is left in the vector, and the kernel ended it otherwise
   than with EAGAIN.
   */
  lemma WriteClosesIff(s: Talk, t: Target, n: nat, ret: int, errno: int, action: Action, u: Talk)
    requires Fits(s) && WriteStep(s, t, n, ret, errno, action, u)
    ensures u.ends != [] && u.wire == s.wire + s.unsent[..n]
    ensures action == Close <==>
              if n == |s.unsent| && s.stale == 0 then !KeepAlive(s.request) else Ended(u) != EAGAIN
  {
    hide Answer, Parse, Wire;
  }

  lemma SentKeeps(s: Talk, n: nat, end: int)
    requires InFlow(s) && n <= |s.unsent|
    ensures InFlow(Sent(s, n, end))
    ensures n == |s.unsent| ==> AtRest(Sent(s, n, end))
  {
    SentIsPart(s.wire, s.unsent, n);
  }

  lemma SentIsPart(wire: string, unsent: string, n: nat)
    requires n <= |unsent|
    ensures wire + unsent[..n] + unsent[n..] == wire + unsent
    ensures wire + unsent[..n] <= wire + unsent
    ensures n == |unsent| ==> unsent[n..] == "" && wire + unsent[..n] == wire + unsent
  {
  }

  lemma WriteKeeps(s: Talk, t: Target, n: nat, ret: int, errno: int, action: Action, u: Talk)
    requires InFlow(s) && WriteStep(s, t, n, ret, errno, action, u)
    ensures if action == ArmIn then AtRest(u) else InFlow(u)
  {
    var end := if ret < 0 then errno else 0;
    SentKeeps(s, n, end);
    var sent := Sent(s, n, end);
    if CountsAsZero(|sent.unsent|, s.stale) && KeepAlive(s.request) {
      var next := sent.(intact := s.intact && n == |s.unsent|);
      assert AtRest(next);
      if s.received != "" {
        RepliedFlows(next, t, u);
      }
    }
  }

  lemma DroppedKeeps(s: Talk, u: Talk)
    requires Accounted(s) && Dropped(s, u)
    ensures Accounted(u) && (Fits(s) ==> Fits(u))
  {
  }

  lemma NewIsAtRest(arrived: string, request: Request, stale: nat)
    ensures AtRest(NewTalk(arrived, request, stale))
  {
    assert "" + ("" + arrived) == arrived;
  }

  // ---------- the count of unsent bytes in an int ----------

  const HALF: int := INT_LIMIT / 2

  /** What is unsent, and what the second vector holds besides, are each less than an int counts. */
  predicate Fits(s: Talk) {
    s.intact && |s.unsent| < HALF && s.stale < HALF
  }

  /** A bound on the file is enough. */
  predicate Short(t: Target) {
    t.file.Some? ==> |t.file.value| < HALF - HEAD_ROOM
  }

  lemma AnswerFits(text: string, t: Target)
    requires Short(t)
    ensures |Wire(Answer(text, t))| < HALF
  {
    var o := Parse(text);
    ReplyFits(if o.ok then 200 else 400, o.ok && KeepAlive(o.request), o.request.path, t);
  }

  lemma ReadStaysFitting(s: Talk, t: Target, errno: int, action: Action, u: Talk)
    requires AtRest(s) && Fits(s) && Short(t) && ReadStep(s, t, errno, action, u)
    ensures Fits(u)
  {
    AnswerFits(s.received + s.incoming, t);
  }

  /** With short files no unsent byte is ever taken for sent. */
  lemma WriteStaysFitting(s: Talk, t: Target, n: nat, ret: int, errno: int, action: Action, u: Talk)
    requires Fits(s) && Short(t) && WriteStep(s, t, n, ret, errno, action, u)
    ensures Fits(u)
  {
    hide Answer;
    AnswerFits(s.received, t);
  }

  /** Some part of what is unsent counts as nothing exactly when so many bytes are unsent. */
  lemma CountMisleadsIff(s: Talk)
    ensures (exists left: nat :: 0 < left <= |s.unsent| && CountsAsZero(left, s.stale))
       <==> |s.unsent| >= INT_LIMIT - Wrapped(s.stale)
  {
    var room: nat := INT_LIMIT - Wrapped(s.stale);
    if |s.unsent| >= room {
      WrappedAdds(s.stale, room);
      assert CountsAsZero(room, s.stale);
    } else {
      forall left: nat | 0 < left <= |s.unsent| ensures !CountsAsZero(left, s.stale) {
        WrappedAdds(s.stale, left);
      }
    }
  }

  /**
   A write event in which the kernel stops with EAGAIN before the end should leave the connection waiting to
   write. It closes it exactly when the client does not want to be kept alive and so many bytes are
   unsent: the kernel only has to stop where what is left counts as nothing.
   */
  lemma ClosesEarlyIff(s: Talk, t: Target)
    ensures (exists n: nat, u :: n < |s.unsent| && WriteStep(s, t, n, -1, EAGAIN, Close, u))
       <==> !KeepAlive(s.request) && |s.unsent| >= INT_LIMIT - Wrapped(s.stale)
  {
    CountMisleadsIff(s);
    if left: nat :| 0 < left <= |s.unsent| && CountsAsZero(left, s.stale) {
      if !KeepAlive(s.request) {
        var n: nat := |s.unsent| - left;
        assert WriteStep(s, t, n, -1, EAGAIN, Close, Sent(s, n, EAGAIN));
      }
    }
  }

  /** A kept-alive connection goes on in the middle of a reply exactly when so many bytes are unsent. */
  lemma CutShortIff(s: Talk, t: Target)
    requires s.intact && KeepAlive(s.request)
    ensures (exists n: nat, action, u :: n < |s.unsent| && WriteStep(s, t, n, -1, EAGAIN, action, u) && !u.intact)
       <==> |s.unsent| >= INT_LIMIT - Wrapped(s.stale)
  {
    hide Answer, Parse;
    CountMisleadsIff(s);
    if left: nat :| 0 < left <= |s.unsent| && CountsAsZero(left, s.stale) {
      var n: nat := |s.unsent| - left;
      var u, action := GoneOn(s, t, n);
      assert WriteStep(s, t, n, -1, EAGAIN, action, u) && !u.intact;
    }
  }

  /** What a kept-alive connection does when what is left counts as nothing. */
  lemma GoneOn(s: Talk, t: Target, n: nat) returns (u: Talk, action: Action)
    requires n <= |s.unsent| && CountsAsZero(|s.unsent| - n, s.stale) && KeepAlive(s.request)
    ensures WriteStep(s, t, n, -1, EAGAIN, action, u)
    ensures u.wire == s.wire + s.unsent[..n] && u.intact == (s.intact && n == |s.unsent|)
    ensures action == if s.received == "" then ArmIn else ArmOut
  {
    hide Answer, Parse, KeepAlive, CountsAsZero;
    var next := Sent(s, n, EAGAIN).(intact := s.intact && n == |s.unsent|);
    if s.received == "" {
      u, action := next.(request := FRESH), ArmIn;
    } else {
      u, action := ReplyMade(next, t), ArmOut;
    }
  }

  /** The talk with the reply to what was received. */
  ghost function ReplyMade(s: Talk, t: Target): (u: Talk)
    ensures Replied(s, t, u)
  {
    s.(received := Parse(s.received).rest, request := Parse(s.received).request,
       texts := s.texts + [s.received], served := s.served + [t],
       unsent := Wire(Answer(s.received, t)), stale := if Served(t).Some? then 0 else s.stale)
  }

  /** As long as the count fits, a connection closes only after a full send or an error other than EAGAIN. */
  lemma ClosesRightly(s: Talk, t: Target, n: nat, ret: int, errno: int, u: Talk)
    requires Fits(s) && WriteStep(s, t, n, ret, errno, Close, u)
    ensures n == |s.unsent| || (ret < 0 && errno != EAGAIN)
  {
  }

  /**
   With everything sent, a connection goes on to the next request exactly when the client wants that
   and the second vector holds no length of an earlier file; otherwise it is closed, or waits to write nothing.
   */
  lemma GoesOnIff(s: Talk, t: Target, ret: int, errno: int, action: Action, u: Talk)
    requires WriteStep(s, t, |s.unsent|, ret, errno, action, u)
    ensures (action == ArmIn || u.texts != s.texts) <==> KeepAlive(s.request) && Wrapped(s.stale) == 0
    ensures !KeepAlive(s.request) && Wrapped(s.stale) == 0 ==> action == Close
    ensures Wrapped(s.stale) != 0 ==> u.unsent == "" && u.stale == s.stale && u.texts == s.texts
  {
    assert |s.unsent[|s.unsent|..]| == 0;
  }

  /**
   With everything sent, the connection goes on exactly when the reply said keep-alive and no length of an
   earlier file is left in the second vector.
   */
  lemma PromiseIsKeptIff(s: Talk, t: Target, ret: int, errno: int, action: Action, u: Talk)
    requires InFlow(s) && WriteStep(s, t, |s.unsent|, ret, errno, action, u)
    ensures var said := FieldValue(Answer(s.texts[|s.texts| - 1], s.served[|s.texts| - 1]).head, "Connection");
            (action == ArmIn || u.texts != s.texts) <==> said == Some("keep-alive") && Wrapped(s.stale) == 0
  {
    hide Answer, Parse, WriteStep, FieldValue;
    GoesOnIff(s, t, ret, errno, action, u);
    AnswerTells(s.texts[|s.texts| - 1], s.served[|s.texts| - 1], "");
    assert "keep-alive"[0] != "close"[0];
  }

  // ---------- runs of events ----------

  /** What the connection waited for before event k. */
  function Before(actions: seq<Action>, k: nat): Action
    requires k <= |actions|
  {
    if k == 0 then ArmIn else actions[k - 1]
  }

  /** One event: bytes may have arrived before it. */
  ghost predicate EventStep(s: Talk, before: Action, bytes: string, t: Target, action: Action, u: Talk) {
    match before
    case ArmIn => exists errno :: ReadStep(Arrive(s, bytes), t, errno, action, u)
    case ArmOut => exists n, ret, errno :: WriteStep(Arrive(s, bytes), t, n, ret, errno, action, u)
    case Close => false
  }

  ghost predicate Events(talks: seq<Talk>, actions: seq<Action>, arrivals: seq<string>, targets: seq<Target>) {
    && |talks| == |actions| + 1 && |actions| <= |arrivals| && |actions| <= |targets|
    && forall k | 0 <= k < |actions| ::
         EventStep(talks[k], Before(actions, k), arrivals[k], targets[k], actions[k], talks[k + 1])
  }

  function Joined(arrivals: seq<string>): string {
    if arrivals == [] then "" else Joined(arrivals[..|arrivals| - 1]) + arrivals[|arrivals| - 1]
  }

  ghost predicate Waiting(s: Talk, before: Action) {
    match before
    case ArmIn => AtRest(s)
    case ArmOut => InFlow(s)
    case Close => Accounted(s)
  }

  /** What one event adds: never anything but bytes to the wire and a reply to the end. */
  ghost predicate Extends(s: Talk, u: Talk, targets: seq<Target>) {
    && s.wire <= u.wire && s.texts <= u.texts && s.served <= u.served
    && (forall j | |s.served| <= j < |u.served| :: u.served[j] in targets)
  }

  lemma EventKeeps(s: Talk, before: Action, bytes: string, t: Target, action: Action, u: Talk)
    requires Waiting(s, before) && EventStep(s, before, bytes, t, action, u)
    ensures Waiting(u, action) && u.arrived == s.arrived + bytes
    ensures Extends(s, u, [t])
    ensures action == ArmIn ==> u.received == ""
    ensures Fits(s) && Short(t) ==> Fits(u)
  {
    hide Accounted, ReadStep, WriteStep;
    ArriveKeeps(s, bytes);
    if before == ArmIn {
      var errno :| ReadStep(Arrive(s, bytes), t, errno, action, u);
      ReadEventKeeps(Arrive(s, bytes), t, errno, action, u);
    } else {
      var n, ret, errno :| WriteStep(Arrive(s, bytes), t, n, ret, errno, action, u);
      WriteEventKeeps(Arrive(s, bytes), t, n, ret, errno, action, u);
    }
  }

  lemma ReadEventKeeps(s: Talk, t: Target, errno: int, action: Action, u: Talk)
    requires AtRest(s) && ReadStep(s, t, errno, action, u)
    ensures Waiting(u, action) && u.arrived == s.arrived
    ensures Extends(s, u, [t]) && (action == ArmIn ==> u.received == "")
    ensures Fits(s) && Short(t) ==> Fits(u)
  {
    hide Accounted, Answer;
    ReadKeeps(s, t, errno, action, u);
    if Fits(s) && Short(t) {
      ReadStaysFitting(s, t, errno, action, u);
    }
  }

  lemma WriteEventKeeps(s: Talk, t: Target, n: nat, ret: int, errno: int, action: Action, u: Talk)
    requires InFlow(s) && WriteStep(s, t, n, ret, errno, action, u)
    ensures Waiting(u, action) && u.arrived == s.arrived
    ensures Extends(s, u, [t]) && (action == ArmIn ==> u.received == "")
    ensures Fits(s) && Short(t) ==> Fits(u)
  {
    hide Accounted, Answer;
    WriteKeeps(s, t, n, ret, errno, action, u);
    if Fits(s) && Short(t) {
      WriteStaysFitting(s, t, n, ret, errno, action, u);
    }
  }

  /**
   Over any run of events, with anything arriving in between: every byte that came in is accounted for,
   the requests are consecutive stretches of it, each is answered once and in order, and the wire is a
   part of the replies; all of them, when the connection waits for a request, and then nothing
   received is left unparsed.
   */
  lemma {:induction false} EventsKeep(talks: seq<Talk>, actions: seq<Action>, arrivals: seq<string>,
                                      targets: seq<Target>, n: nat)
    requires Events(talks, actions, arrivals, targets) && n <= |actions| && AtRest(talks[0])
    ensures var s, u := talks[0], talks[n];
            && Waiting(u, Before(actions, n)) && Extends(s, u, targets)
            && u.arrived == s.arrived + Joined(arrivals[..n])
            && (n > 0 && Before(actions, n) == ArmIn ==> u.received == "")
            && (Fits(s) && (forall t | t in targets :: Short(t)) ==> Fits(u))
    decreases n
  {
    hide EventStep, Waiting, Extends, Fits, Short;
    if n > 0 {
      EventsKeep(talks, actions, arrivals, targets, n - 1);
      var u, v := talks[n - 1], talks[n];
      assert targets[n - 1] in targets;
      EventKeeps(u, Before(actions, n - 1), arrivals[n - 1], targets[n - 1], actions[n - 1], v);
      ExtendsOn(talks[0], u, v, targets[n - 1], targets);
      JoinedNext(talks[0].arrived, arrivals, n);
    } else {
      NothingYet(talks[0], arrivals, targets);
    }
  }

  /**
   Over any run of events with short files, a connection that waits to write is closed only after a full
   send or an error other than EAGAIN.
   */
  lemma RunsCloseRightly(talks: seq<Talk>, actions: seq<Action>, arrivals: seq<string>, targets: seq<Target>, k: nat)
    returns (n: nat, ret: int, errno: int)
    requires Events(talks, actions, arrivals, targets) && AtRest(talks[0]) && Fits(talks[0])
    requires forall t | t in targets :: Short(t)
    requires k < |actions| && Before(actions, k) == ArmOut && actions[k] == Close
    ensures WriteStep(Arrive(talks[k], arrivals[k]), targets[k], n, ret, errno, Close, talks[k + 1])
    ensures n == |talks[k].unsent| || (ret < 0 && errno != EAGAIN)
  {
    hide WriteStep, Fits, Short;
    EventsKeep(talks, actions, arrivals, targets, k);
    var s := Arrive(talks[k], arrivals[k]);
    assert EventStep(talks[k], ArmOut, arrivals[k], targets[k], Close, talks[k + 1]);
    n, ret, errno :| WriteStep(s, targets[k], n, ret, errno, Close, talks[k + 1]);
    ArriveFits(talks[k], arrivals[k]);
    ClosesRightly(s, targets[k], n, ret, errno, talks[k + 1]);
  }

  /** Over any run of events: which read events close, wait on, or answer. */
  lemma ReadsCloseIff(talks: seq<Talk>, actions: seq<Action>, arrivals: seq<string>, targets: seq<Target>, k: nat)
    requires Events(talks, actions, arrivals, targets) && k < |actions| && Before(actions, k) == ArmIn
    ensures talks[k + 1].ends != [] && (actions[k] == Close <==> Ended(talks[k + 1]) != EAGAIN)
    ensures actions[k] == ArmIn <==>
              Ended(talks[k + 1]) == EAGAIN && talks[k].received + (talks[k].incoming + arrivals[k]) == ""
  {
    hide ReadStep;
    var s := Arrive(talks[k], arrivals[k]);
    assert EventStep(talks[k], ArmIn, arrivals[k], targets[k], actions[k], talks[k + 1]);
    var errno :| ReadStep(s, targets[k], errno, actions[k], talks[k + 1]);
    ReadClosesIff(s, targets[k], errno, actions[k], talks[k + 1]);
  }

  /** Over any run of events with short files: which write events close. */
  lemma WritesCloseIff(talks: seq<Talk>, actions: seq<Action>, arrivals: seq<string>, targets: seq<Target>, k: nat)
    requires Events(talks, actions, arrivals, targets) && AtRest(talks[0]) && Fits(talks[0])
    requires forall t | t in targets :: Short(t)
    requires k < |actions| && Before(actions, k) == ArmOut
    ensures var s, u := talks[k], talks[k + 1];
            && u.ends != []
            && (actions[k] == Close <==>
                 if u.wire == s.wire + s.unsent && s.stale == 0 then !KeepAlive(s.request) else Ended(u) != EAGAIN)
  {
    hide WriteStep, Fits, Short, KeepAlive;
    EventsKeep(talks, actions, arrivals, targets, k);
    var s := Arrive(talks[k], arrivals[k]);
    assert EventStep(talks[k], ArmOut, arrivals[k], targets[k], actions[k], talks[k + 1]);
    var n: nat, ret, errno :| WriteStep(s, targets[k], n, ret, errno, actions[k], talks[k + 1]);
    ArriveFits(talks[k], arrivals[k]);
    StepIsBounded(s, targets[k], n, ret, errno, actions[k], talks[k + 1]);
    WriteClosesIff(s, targets[k], n, ret, errno, actions[k], talks[k + 1]);
    AllOrPart(s.wire, s.unsent, n);
  }

  lemma StepIsBounded(s: Talk, t: Target, n: nat, ret: int, errno: int, action: Action, u: Talk)
    requires WriteStep(s, t, n, ret, errno, action, u)
    ensures n <= |s.unsent|
  {
  }

  lemma AllOrPart(wire: string, unsent: string, n: nat)
    requires n <= |unsent|
    ensures wire + unsent[..n] == wire + unsent <==> n == |unsent|
  {
    assert |wire + unsent[..n]| == |wire| + n;
  }

  lemma ArriveFits(s: Talk, bytes: string)
    requires Fits(s)
    ensures Fits(Arrive(s, bytes)) && Arrive(s, bytes).unsent == s.unsent
  {
  }

  lemma JoinedNext(start: string, arrivals: seq<string>, n: nat)
    requires 0 < n <= |arrivals|
    ensures start + Joined(arrivals[..n]) == start + Joined(arrivals[..n - 1]) + arrivals[n - 1]
  {
    assert arrivals[..n][..n - 1] == arrivals[..n - 1];
  }

  lemma NothingYet(s: Talk, arrivals: seq<string>, targets: seq<Target>)
    requires AtRest(s)
    ensures Waiting(s, ArmIn) && Extends(s, s, targets) && s.arrived == s.arrived + Joined(arrivals[..0])
  {
  }

  lemma ExtendsOn(s: Talk, u: Talk, v: Talk, t: Target, targets: seq<Target>)
    requires Extends(s, u, targets) && Extends(u, v, [t]) && t in targets
    ensures Extends(s, v, targets)
  {
    forall j | |s.served| <= j < |v.served| ensures v.served[j] in targets {
      assert j < |u.served| ==> v.served[j] == u.served[j];
    }
  }

  // ---------- runs that there are ----------

  /** A new client's bytes, read and answered. */
  lemma FirstRead(text: string, t: Target, request: Request, stale: nat) returns (u: Talk)
    requires text != ""
    ensures ReadStep(NewTalk(text, request, stale), t, EAGAIN, ArmOut, u)
    ensures u.texts == [text] && u.unsent == Wire(Answer(text, t)) && u.wire == "" && u.intact
    ensures u.request == Parse(text).request && u.received == Parse(text).rest && u.incoming == ""
    ensures u.stale == if Served(t).Some? then 0 else stale
  {
    hide Answer, Parse, Wire;
    var s := NewTalk(text, request, stale);
    assert "" + text == text && [] + [text] == [text];
    u := ReplyMade(s.(ends := s.ends + [EAGAIN], received := text, incoming := ""), t);
  }

  /** The kernel takes everything. */
  lemma AllSent(s: Talk, t: Target) returns (u: Talk, action: Action)
    requires s.stale == 0
    ensures WriteStep(s, t, |s.unsent|, -1, EAGAIN, action, u) && u.wire == s.wire + s.unsent
    ensures action == if !KeepAlive(s.request) then Close else if s.received == "" then ArmIn else ArmOut
  {
    hide Answer, Parse, KeepAlive;
    var n := |s.unsent|;
    assert s.unsent[..n] == s.unsent && s.unsent[n..] == "";
    if KeepAlive(s.request) {
      u, action := GoneOn(s, t, n);
    } else {
      u, action := Sent(s, n, EAGAIN), Close;
    }
  }

  lemma ArriveNothing(s: Talk)
    ensures Arrive(s, "") == s
  {
    assert s.arrived + "" == s.arrived && s.incoming + "" == s.incoming;
  }

  /** A read event in which the text arrives, and a write event. */
  lemma TwoEvents(text: string, t: Target, u: Talk, n: nat, ret: int, errno: int, action: Action, v: Talk)
    requires ReadStep(NewTalk(text, FRESH, 0), t, EAGAIN, ArmOut, u)
    requires WriteStep(u, t, n, ret, errno, action, v)
    ensures Events([NewTalk("", FRESH, 0), u, v], [ArmOut, action], [text, ""], [t, t])
  {
    hide ReadStep, WriteStep;
    var s := NewTalk("", FRESH, 0);
    assert Arrive(s, text) == NewTalk(text, FRESH, 0) by {
      assert "" + text == text;
    }
    ArriveNothing(u);
    assert EventStep(s, ArmIn, text, t, ArmOut, u) && EventStep(u, ArmOut, "", t, action, v);
  }

  /**
   There are such runs: whatever a new client sends, it can be read, answered and sent whole, and then
   the connection is closed, waits for more, or goes on with what came behind, as the client asked.
   */
  lemma WholeExchange(text: string, t: Target) returns (talks: seq<Talk>, actions: seq<Action>)
    requires text != ""
    ensures |actions| == 2 && Events(talks, actions, [text, ""], [t, t])
    ensures talks[0] == NewTalk("", FRESH, 0) && talks[2].wire == Wire(Answer(text, t))
    ensures var o := Parse(text);
            actions == [ArmOut, if !KeepAlive(o.request) then Close else if o.rest == "" then ArmIn else ArmOut]
  {
    hide Answer, Wire, Parse, KeepAlive, ReadStep, WriteStep, Events;
    var u := FirstRead(text, t, FRESH, 0);
    var v, action := AllSent(u, t);
    TwoEvents(text, t, u, |u.unsent|, -1, EAGAIN, action, v);
    talks, actions := [NewTalk("", FRESH, 0), u, v], [ArmOut, action];
    assert "" + Wire(Answer(text, t)) == Wire(Answer(text, t));
  }

  lemma FileEndsReply(text: string, t: Target)
    requires Served(t).Some?
    ensures |Served(t).value| <= |Wire(Answer(text, t))|
  {
    var m := Answer(text, t);
    assert m.body == Served(t).value;
  }

  /**
   There are runs in which the count misleads. Whatever a new client asks for, let the answer be a file of
   2^32 bytes: when the kernel takes the head and no more, the whole file counts as nothing, and the
   connection is closed, or goes on to the next request, with none of the file sent.
   */
  lemma LongFileIsCutShort(text: string, t: Target) returns (talks: seq<Talk>, actions: seq<Action>)
    requires text != "" && Served(t).Some? && |Served(t).value| == INT_LIMIT
    ensures |actions| == 2 && Events(talks, actions, [text, ""], [t, t]) && talks[0] == NewTalk("", FRESH, 0)
    ensures |talks[2].wire| + INT_LIMIT == |Wire(Answer(text, t))|
    ensures if KeepAlive(Parse(text).request) then !talks[2].intact && actions[1] != Close else actions[1] == Close
  {
    hide Answer, Wire, Parse, KeepAlive, ReadStep, WriteStep, Events;
    FileEndsReply(text, t);
    var u := FirstRead(text, t, FRESH, 0);
    var n: nat := |u.unsent| - INT_LIMIT;
    assert CountsAsZero(|u.unsent| - n, u.stale);
    var v, action := CountedOut(u, t, n);
    TwoEvents(text, t, u, n, -1, EAGAIN, action, v);
    talks, actions := [NewTalk("", FRESH, 0), u, v], [ArmOut, action];
  }

  /** A write event in which the kernel stops where what is left counts as nothing. */
  lemma CountedOut(s: Talk, t: Target, n: nat) returns (u: Talk, action: Action)
    requires n < |s.unsent| && CountsAsZero(|s.unsent| - n, s.stale)
    ensures WriteStep(s, t, n, -1, EAGAIN, action, u) && u.wire == s.wire + s.unsent[..n]
    ensures if KeepAlive(s.request) then !u.intact && action != Close else action == Close
  {
    hide Answer, Parse, KeepAlive, CountsAsZero;
    if KeepAlive(s.request) {
      u, action := GoneOn(s, t, n);
    } else {
      u, action := Sent(s, n, EAGAIN), Close;
    }
  }

  /** Such a target is there to be served. */
  lemma LongFileExists()
    ensures exists t :: Servable(t) && Served(t).Some? && |Served(t).value| == INT_LIMIT
  {
    var file := seq(INT_LIMIT, _ => 'x');
    var t := Target(Regular(INT_LIMIT, true), Some(file));
    assert file[0] == 'x';
    assert !ReadsAsMinusOne(file);
    assert Servable(t) && Served(t).Some? && |Served(t).value| == INT_LIMIT;
  }

  /**
   There are runs in which a file's length outlives its connection: the client hangs up before anything of
   the file is sent, and the next client on the descriptor, which asks to be kept alive, gets the whole
   of a reply without a file and is closed all the same.
   */
  lemma ReuseAfterHangup(text: string, f: Target, text2: string, e: Target)
    returns (u: Talk, v: Talk, w: Talk, x: Talk)
    requires text != "" && Served(f).Some? && Wrapped(|Served(f).value|) != 0
    requires text2 != "" && Served(e) == None && KeepAlive(Parse(text2).request)
    ensures ReadStep(NewTalk(text, FRESH, 0), f, EAGAIN, ArmOut, u)
    ensures Dropped(u, v) && v.stale == |Served(f).value|
    ensures ReadStep(NewTalk(text2, v.request, v.stale), e, EAGAIN, ArmOut, w)
    ensures WriteStep(w, e, |w.unsent|, 0, 0, Close, x) && x.wire == Wire(Answer(text2, e))
  {
    hide Answer, Wire, Parse, KeepAlive, ReadStep;
    FileEndsReply(text, f);
    u := FirstRead(text, f, FRESH, 0);
    var head := |u.unsent| - |Served(f).value|;
    v := u.(unsent := u.unsent[..head], stale := |Served(f).value|);
    w := FirstRead(text2, e, v.request, v.stale);
    x := Sent(w, |w.unsent|, 0);
    assert w.unsent[|w.unsent|..] == "" && w.unsent[..|w.unsent|] == w.unsent;
    assert "" + w.unsent == w.unsent;
  }

  // ---------- whole requests ----------

  /** A text that is one request and nothing more. */
  predicate Whole(text: string) {
    text != "" && Parse(text).rest == ""
  }

  /** A printed request without a body is one, and this is its answer. */
  lemma PrintedIsWhole(m: string, p: string, v: string, hs: seq<Header>, t: Target)
    requires Printable(m, p, v, hs)
    ensures var text := Print(m, p, v, hs, "");
            var request := Request(FINISH, m, NormalPath(p), v, "", HeaderMap(hs, map[]));
            Whole(text) && Answer(text, t) == Reply(200, KeepAlive(request), NormalPath(p), t)
  {
    hide Reply;
    PrintedIsReadBack(m, p, v, hs, "");
    assert Print(m, p, v, hs, "")[|m|] == ' ';
    assert FindCrlf("") == 0;
  }

  /** What arrived before the first n events where the connection waited for a request. */
  function Asked(actions: seq<Action>, arrivals: seq<string>, n: nat): seq<string>
    requires n <= |actions| && n <= |arrivals|
  {
    if n == 0 then []
    else Asked(actions, arrivals, n - 1) + if Before(actions, n - 1) == ArmIn then [arrivals[n - 1]] else []
  }

  /** The client sends one whole request whenever it has all replies, and nothing at other times. */
  ghost predicate OneAtATime(actions: seq<Action>, arrivals: seq<string>) {
    forall k | 0 <= k < |actions| && k < |arrivals| ::
      if Before(actions, k) == ArmIn then Whole(arrivals[k]) else arrivals[k] == ""
  }

  /** Such a client's requests are the texts, one each: reply k answers request k. */
  lemma {:induction false} RequestsAreTexts(talks: seq<Talk>, actions: seq<Action>, arrivals: seq<string>,
                                            targets: seq<Target>, n: nat, stale: nat)
    requires Events(talks, actions, arrivals, targets) && n <= |actions| && talks[0] == NewTalk("", FRESH, stale)
    requires OneAtATime(actions, arrivals) && Before(actions, n) != Close
    ensures talks[n].texts == Asked(actions, arrivals, n) && talks[n].received == "" && talks[n].incoming == ""
    decreases n
  {
    hide Whole, EventStep;
    if n > 0 {
      var k := n - 1;
      OpenBefore(talks[k], Before(actions, k), arrivals[k], targets[k], actions[k], talks[k + 1]);
      RequestsAreTexts(talks, actions, arrivals, targets, k, stale);
      OneMoreText(talks[k], Before(actions, k), arrivals[k], targets[k], actions[k], talks[n]);
    }
  }

  lemma OpenBefore(s: Talk, before: Action, bytes: string, t: Target, action: Action, u: Talk)
    requires EventStep(s, before, bytes, t, action, u)
    ensures before != Close
  {
  }

  lemma OneMoreText(s: Talk, before: Action, bytes: string, t: Target, action: Action, u: Talk)
    requires EventStep(s, before, bytes, t, action, u) && action != Close && s.received == "" && s.incoming == ""
    requires if before == ArmIn then Whole(bytes) else bytes == ""
    ensures u.texts == s.texts + (if before == ArmIn then [bytes] else []) && u.received == "" && u.incoming == ""
  {
    hide Answer, Parse, KeepAlive;
    assert "" + bytes == bytes && s.texts + [] == s.texts;
  }
}
