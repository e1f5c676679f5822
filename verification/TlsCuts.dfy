/** Which cuts of the server's stream change the TLS response, told from the stream and the
    cut positions alone: those that end a receive exactly where a post-handshake message
    ends. */
module TlsCuts {
  import opened Bytes
  import opened TlsReceive

  /** A provider that decides a record, a message or a handshake step as soon as its last
      byte is there, and counts a message among the bytes it used. */
  ghost predicate Prompt(tls: Provider) {
    forall c, b :: PromptOn(tls, c, b)
  }

  predicate PromptOn(tls: Provider, c: seq<byte>, b: seq<byte>) {
    && (match tls.decrypt(c, b)
        case Record(_, used) => used <= |b| ==> tls.decrypt(c, b[..used]) == tls.decrypt(c, b)
        case PostHandshake(used) => used > 0 && (used <= |b| ==> tls.decrypt(c, b[..used]) == tls.decrypt(c, b))
        case _ => true)
    && (match tls.handshake(c, b)
        case Done(used) => used <= |b| ==> tls.handshake(c, b[..used]) == tls.handshake(c, b)
        case Continue(used) => used <= |b| ==> tls.handshake(c, b[..used]) == tls.handshake(c, b)
        case _ => true)
  }

  /** With `buffered` bytes there, some receive ends at offset `at`. */
  predicate Boundary(buffered: nat, pieces: seq<seq<byte>>, at: nat)
    decreases |pieces|
  {
    at == buffered || (pieces != [] && Boundary(buffered + |pieces[0]|, pieces[1..], at))
  }

  /** The uncut stream ends a post-handshake message at offset `at`, and no record before
      that message decided the response. */
  predicate EndsMessage(tls: Provider, consumed: seq<byte>, rest: seq<byte>, plaintext: seq<byte>, at: nat)
    decreases |rest|
  {
    rest != [] &&
    match tls.decrypt(consumed, rest)
    case PostHandshake(used) =>
      used <= |rest| &&
      (at == used ||
       (used < |rest| &&
        var n := Settled(tls, consumed + rest[..used], rest[used..]);
        n.Some? && used + n.value <= at
        && EndsMessage(tls, consumed + rest[..used + n.value], rest[used + n.value..], plaintext, at - (used + n.value))))
    case Record(plain, used) =>
      0 < used <= |rest| && used <= at && !Stops(tls, plaintext + plain)
      && EndsMessage(tls, consumed + rest[..used], rest[used..], plaintext + plain, at - used)
    case _ => false
  }

  // --------------------------------------------------------------- boundaries

  lemma {:induction false} BoundaryIsASumOfPieces(buffered: nat, pieces: seq<seq<byte>>, at: nat)
    ensures Boundary(buffered, pieces, at)
       <==> exists k: nat :: k <= |pieces| && at == buffered + |Concat(pieces[..k])|
    decreases |pieces|
  {
    if pieces == [] {
      assert |Concat(pieces[..0])| == 0;
    } else {
      BoundaryIsASumOfPieces(buffered + |pieces[0]|, pieces[1..], at);
      if at == buffered {
        assert |Concat(pieces[..0])| == 0;
      }
      if k: nat :| k <= |pieces[1..]| && at == buffered + |pieces[0]| + |Concat(pieces[1..][..k])| {
        assert pieces[..k + 1][1..] == pieces[1..][..k];
        assert at == buffered + |Concat(pieces[..k + 1])|;
      }
      if k: nat :| k <= |pieces| && at == buffered + |Concat(pieces[..k])| && k > 0 {
        assert pieces[..k][1..] == pieces[1..][..k - 1];
        assert at == buffered + |pieces[0]| + |Concat(pieces[1..][..k - 1])|;
      }
    }
  }

  lemma {:induction false} BoundaryShifts(buffered: nat, pieces: seq<seq<byte>>, at: nat, n: nat)
    requires n <= buffered && n <= at
    ensures Boundary(buffered, pieces, at) == Boundary(buffered - n, pieces, at - n)
    decreases |pieces|
  {
    if pieces != [] {
      BoundaryShifts(buffered + |pieces[0]|, pieces[1..], at, n);
    }
  }

  lemma {:induction false} BoundaryIsNotBehind(buffered: nat, pieces: seq<seq<byte>>, at: nat)
    requires Boundary(buffered, pieces, at)
    ensures at >= buffered
    decreases |pieces|
  {
    if at != buffered {
      BoundaryIsNotBehind(buffered + |pieces[0]|, pieces[1..], at);
    }
  }

  // ------------------------------------------------------------ message ends

  lemma {:induction false} MessagesEndInside(tls: Provider, consumed: seq<byte>, rest: seq<byte>, plaintext: seq<byte>, at: nat)
    requires Prompt(tls) && EndsMessage(tls, consumed, rest, plaintext, at)
    ensures 0 < at <= |rest|
    decreases |rest|
  {
    assert PromptOn(tls, consumed, rest);
    match tls.decrypt(consumed, rest)
    case PostHandshake(used) =>
      if at != used {
        var n := Settled(tls, consumed + rest[..used], rest[used..]);
        MessagesEndInside(tls, consumed + rest[..used + n.value], rest[used + n.value..], plaintext, at - (used + n.value));
      }
    case Record(plain, used) =>
      MessagesEndInside(tls, consumed + rest[..used], rest[used..], plaintext + plain, at - used);
    case _ =>
  }

  /** A prompt provider that wants more has not seen the end of what comes first. */
  lemma UndecidedRunsOn(tls: Provider, link: Link, used: nat)
    requires Contract(tls) && Prompt(tls) && used <= |link.buffer|
    ensures var d := tls.decrypt(link.consumed, link.Rest());
            d == PostHandshake(used) || (d.Record? && d.used == used) ==> !tls.decrypt(link.consumed, link.buffer).Incomplete?
    ensures var h := tls.handshake(link.consumed, link.Rest());
            h == Done(used) || h == Continue(used) ==> !tls.handshake(link.consumed, link.buffer).NeedsMore?
  {
    assert PromptOn(tls, link.consumed, link.Rest());
    assert link.Rest()[..used] == link.buffer[..used];
    assert link.buffer[..used] + link.buffer[used..] == link.buffer;
  }

  lemma IncompleteEndsLater(tls: Provider, link: Link, plaintext: seq<byte>, at: nat)
    requires Contract(tls) && Prompt(tls) && link.buffer != []
    requires tls.decrypt(link.consumed, link.buffer).Incomplete?
    requires EndsMessage(tls, link.consumed, link.Rest(), plaintext, at)
    ensures at > |link.buffer|
  {
    var d := tls.decrypt(link.consumed, link.Rest());
    if d.used <= |link.buffer| {
      UndecidedRunsOn(tls, link, d.used);
    }
  }

  /** Going back into the handshake keeps every boundary past the bytes it consumes. */
  lemma {:induction false} HandshakeKeepsBoundaries(tls: Provider, link: Link, n: nat, at: nat)
    requires Contract(tls) && Prompt(tls) && AllPieces(link.pieces)
    requires Settled(tls, link.consumed, link.Rest()) == Some(n) && n < at && Continued(tls, link).Some?
    ensures var next := Continued(tls, link).value;
            Boundary(|link.buffer|, link.pieces, at) == Boundary(|next.buffer|, next.pieces, at - n)
    decreases |link.Rest()|, |link.pieces|
  {
    hide Continued, Settled;
    if link.buffer == [] {
      EmptyTurn(tls, link);
      HandshakeKeepsBoundaries(tls, link.Fill(), n, at);
    } else {
      var h := tls.handshake(link.consumed, link.buffer);
      OneTurn(tls, link);
      DecidedOnTheRest(tls, link);
      SettledTurn(tls, link.consumed, link.Rest());
      if h.NeedsMore? {
        HandshakeRunsOn(tls, link, n);
        HandshakeKeepsBoundaries(tls, link.Fill(), n, at);
      } else {
        DropIsConsumption(link, h.used);
        BoundaryShifts(|link.buffer|, link.pieces, at, h.used);
        if h.Continue? {
          HandshakeKeepsBoundaries(tls, link.Drop(h.used), n - h.used, at - h.used);
        }
      }
    }
  }

  lemma SettledTurn(tls: Provider, consumed: seq<byte>, rest: seq<byte>)
    requires Consumes(tls) && rest != []
    ensures var h := tls.handshake(consumed, rest);
            && HandshakenOk(h, rest)
            && (h.NeedsMore? || h.Refused? ==> Settled(tls, consumed, rest) == None)
            && (h.Done? ==> Settled(tls, consumed, rest) == Some(h.used))
            && (h.Continue? ==>
                  var more := Settled(tls, consumed + rest[..h.used], rest[h.used..]);
                  Settled(tls, consumed, rest) == if more.None? then None else Some(h.used + more.value))
  {
  }

  lemma HandshakeRunsOn(tls: Provider, link: Link, n: nat)
    requires Contract(tls) && Prompt(tls) && link.buffer != []
    requires tls.handshake(link.consumed, link.buffer).NeedsMore?
    requires Settled(tls, link.consumed, link.Rest()) == Some(n)
    ensures n > |link.buffer|
  {
    var h := tls.handshake(link.consumed, link.Rest());
    if h.used <= |link.buffer| {
      UndecidedRunsOn(tls, link, h.used);
    }
  }

  // -------------------------------------------------------------- the theorem

  ghost predicate CutAtMessageEnd(tls: Provider, link: Link, plaintext: seq<byte>, at: nat) {
    Boundary(|link.buffer|, link.pieces, at) && EndsMessage(tls, link.consumed, link.Rest(), plaintext, at)
  }

  /** One turn of the receive loop, as far as swallowing goes. */
  lemma SwallowingTurn(tls: Provider, link: Link, plaintext: seq<byte>)
    requires Contract(tls) && link.buffer != []
    ensures var d := tls.decrypt(link.consumed, link.buffer);
            && DecryptedOk(d, link.buffer)
            && (d.Incomplete? ==> Swallows(tls, link, plaintext) == (link.CanReceive() && Swallows(tls, link.Fill(), plaintext)))
            && (d.Rejected? ==> !Swallows(tls, link, plaintext))
            && (d.Record? ==>
                  Swallows(tls, link, plaintext)
                  == (!Stops(tls, plaintext + d.plain) && Swallows(tls, link.Drop(d.used), plaintext + d.plain)))
            && (d.PostHandshake? && d.used == |link.buffer| ==> Swallows(tls, link, plaintext))
            && (d.PostHandshake? && d.used < |link.buffer| ==>
                  var next := Continued(tls, link.Drop(d.used));
                  Swallows(tls, link, plaintext) == (next.Some? && Swallows(tls, next.value, plaintext)))
  {
  }

  lemma SwallowingNothing(tls: Provider, link: Link, plaintext: seq<byte>)
    requires link.buffer == []
    ensures Swallows(tls, link, plaintext) == (link.CanReceive() && Swallows(tls, link.Fill(), plaintext))
  {
  }

  /** Where the receive loop takes a record, cuts at message ends move along with it. */
  lemma CutsPastARecord(tls: Provider, link: Link, plaintext: seq<byte>, plain: seq<byte>, used: nat, at: nat)
    requires Contract(tls) && tls.decrypt(link.consumed, link.buffer) == Record(plain, used) && link.buffer != []
    requires 0 < used <= |link.buffer|
    ensures used <= at ==>
      CutAtMessageEnd(tls, link, plaintext, at)
      == (!Stops(tls, plaintext + plain) && CutAtMessageEnd(tls, link.Drop(used), plaintext + plain, at - used))
    ensures CutAtMessageEnd(tls, link, plaintext, at) ==> used <= at
  {
    DecidedOnTheRest(tls, link);
    DropIsConsumption(link, used);
    if used <= at {
      BoundaryShifts(|link.buffer|, link.pieces, at, used);
    }
  }

  /** And where it takes a message with its EXTRA bytes. */
  lemma CutsPastAMessage(tls: Provider, link: Link, plaintext: seq<byte>, used: nat, at: nat)
    requires Contract(tls) && Prompt(tls) && AllPieces(link.pieces)
    requires used < |link.buffer| && tls.decrypt(link.consumed, link.buffer) == PostHandshake(used)
    ensures var next := Continued(tls, link.Drop(used));
            var n := Settled(tls, link.Drop(used).consumed, link.Drop(used).Rest());
            && next.Some? == n.Some?
            && (CutAtMessageEnd(tls, link, plaintext, at) ==> next.Some? && used + n.value < at)
            && (next.Some? && used + n.value < at ==>
                  CutAtMessageEnd(tls, link, plaintext, at) == CutAtMessageEnd(tls, next.value, plaintext, at - used - n.value))
  {
    hide Contract, Prompt, AllPieces, Continued, Settled, EndsMessage, Boundary;
    DecidedOnTheRest(tls, link);
    AfterSettling(tls, link, used);
    var n := Settled(tls, link.Drop(used).consumed, link.Drop(used).Rest());
    NoCutInTheMessage(tls, link, used, at);
    if at != used {
      if n.None? {
        NoEndPastAFailedMessage(tls, link, plaintext, used, at);
      } else {
        EndsPastAMessage(tls, link, plaintext, used, n.value, at);
        if used + n.value < at {
          BoundariesPastAMessage(tls, link, used, n.value, at);
        }
      }
    }
  }

  /** The link after a message and the handshake it started, on the uncut stream. */
  lemma AfterSettling(tls: Provider, link: Link, used: nat)
    requires Contract(tls) && AllPieces(link.pieces) && used < |link.buffer|
    ensures var rest := link.Rest();
            var n := Settled(tls, link.consumed + rest[..used], rest[used..]);
            var next := Continued(tls, link.Drop(used));
            && used < |rest|
            && Settled(tls, link.Drop(used).consumed, link.Drop(used).Rest()) == n
            && next.Some? == n.Some?
            && (n.Some? ==>
                  && AllPieces(next.value.pieces)
                  && used + n.value <= |rest|
                  && next.value.consumed == link.consumed + rest[..used + n.value]
                  && next.value.Rest() == rest[used + n.value..])
  {
    hide Continued, Settled;
    var dropped := link.Drop(used);
    DropIsConsumption(link, used);
    HandshakeIgnoresCuts(tls, dropped);
    var n := Settled(tls, dropped.consumed, dropped.Rest());
    if n.Some? {
      ConsumeTwice(link.consumed, link.Rest(), used, n.value);
    }
  }

  lemma BoundariesPastAMessage(tls: Provider, link: Link, used: nat, n: nat, at: nat)
    requires Contract(tls) && Prompt(tls) && AllPieces(link.pieces) && used < |link.buffer| && used + n < at
    requires Settled(tls, link.Drop(used).consumed, link.Drop(used).Rest()) == Some(n)
    requires Continued(tls, link.Drop(used)).Some?
    ensures var next := Continued(tls, link.Drop(used)).value;
            Boundary(|link.buffer|, link.pieces, at) == Boundary(|next.buffer|, next.pieces, at - used - n)
  {
    hide Continued, Settled, Boundary;
    BoundaryShifts(|link.buffer|, link.pieces, at, used);
    HandshakeKeepsBoundaries(tls, link.Drop(used), n, at - used);
  }

  lemma NoCutInTheMessage(tls: Provider, link: Link, used: nat, at: nat)
    requires used < |link.buffer|
    ensures Boundary(|link.buffer|, link.pieces, at) ==> at != used
  {
    if Boundary(|link.buffer|, link.pieces, at) {
      BoundaryIsNotBehind(|link.buffer|, link.pieces, at);
    }
  }

  lemma NoEndPastAFailedMessage(tls: Provider, link: Link, plaintext: seq<byte>, used: nat, at: nat)
    requires used < |link.Rest()| && tls.decrypt(link.consumed, link.Rest()) == PostHandshake(used) && at != used
    requires var rest := link.Rest(); Settled(tls, link.consumed + rest[..used], rest[used..]) == None
    ensures !EndsMessage(tls, link.consumed, link.Rest(), plaintext, at)
  {
  }

  lemma EndsPastAMessage(tls: Provider, link: Link, plaintext: seq<byte>, used: nat, n: nat, at: nat)
    requires Contract(tls) && Prompt(tls) && used < |link.Rest()|
    requires tls.decrypt(link.consumed, link.Rest()) == PostHandshake(used) && at != used
    requires var rest := link.Rest(); Settled(tls, link.consumed + rest[..used], rest[used..]) == Some(n)
    ensures var rest := link.Rest();
            && used + n <= |rest|
            && (used + n < at ==>
                  EndsMessage(tls, link.consumed, rest, plaintext, at)
                  == EndsMessage(tls, link.consumed + rest[..used + n], rest[used + n..], plaintext, at - used - n))
            && (at <= used + n ==> !EndsMessage(tls, link.consumed, rest, plaintext, at))
  {
    var rest := link.Rest();
    if at == used + n && EndsMessage(tls, link.consumed + rest[..used + n], rest[used + n..], plaintext, 0) {
      MessagesEndInside(tls, link.consumed + rest[..used + n], rest[used + n..], plaintext, 0);
    }
  }

  /** One way: a swallowed message was cut off at its end. */
  lemma {:induction false} SwallowedAtItsEnd(tls: Provider, link: Link, plaintext: seq<byte>) returns (at: nat)
    requires Contract(tls) && Prompt(tls) && AllPieces(link.pieces) && Swallows(tls, link, plaintext)
    ensures at > 0 && CutAtMessageEnd(tls, link, plaintext, at)
    decreases |link.Rest()|, |link.pieces|
  {
    hide Contract, Prompt, Swallows, CutAtMessageEnd, Continued, Settled;
    var d := tls.decrypt(link.consumed, link.buffer);
    if link.buffer == [] {
      SwallowingNothing(tls, link, plaintext);
      at := SwallowedAtItsEnd(tls, link.Fill(), plaintext);
      CutsOfAFill(tls, link, plaintext, at);
    } else {
      SwallowingTurn(tls, link, plaintext);
      if d.Incomplete? {
        at := SwallowedAtItsEnd(tls, link.Fill(), plaintext);
        CutsOfAFill(tls, link, plaintext, at);
      } else if d.Record? {
        at := SwallowedAtItsEnd(tls, link.Drop(d.used), plaintext + d.plain);
        at := at + d.used;
        CutsPastARecord(tls, link, plaintext, d.plain, d.used, at);
      } else if d.used == |link.buffer| {
        at := d.used;
        CutOffHere(tls, link, plaintext);
      } else {
        AfterSettling(tls, link, d.used);
        at := SwallowedAtItsEnd(tls, Continued(tls, link.Drop(d.used)).value, plaintext);
        at := at + d.used + Settled(tls, link.Drop(d.used).consumed, link.Drop(d.used).Rest()).value;
        CutsPastAMessage(tls, link, plaintext, d.used, at);
      }
    }
  }

  lemma CutsOfAFill(tls: Provider, link: Link, plaintext: seq<byte>, at: nat)
    requires link.pieces != []
    ensures CutAtMessageEnd(tls, link.Fill(), plaintext, at) ==> CutAtMessageEnd(tls, link, plaintext, at)
    ensures at != |link.buffer| && CutAtMessageEnd(tls, link, plaintext, at) ==> CutAtMessageEnd(tls, link.Fill(), plaintext, at)
  {
  }

  lemma CutOffHere(tls: Provider, link: Link, plaintext: seq<byte>)
    requires Contract(tls) && Prompt(tls) && link.buffer != []
    requires tls.decrypt(link.consumed, link.buffer) == PostHandshake(|link.buffer|)
    ensures |link.buffer| > 0 && CutAtMessageEnd(tls, link, plaintext, |link.buffer|)
  {
    DecidedOnTheRest(tls, link);
  }

  /** And the other: a receive that ends where a message ends swallows one. */
  lemma {:induction false} CutsAtMessageEndsSwallow(tls: Provider, link: Link, plaintext: seq<byte>, at: nat)
    requires Contract(tls) && Prompt(tls) && AllPieces(link.pieces) && CutAtMessageEnd(tls, link, plaintext, at)
    ensures Swallows(tls, link, plaintext)
    decreases |link.Rest()|, |link.pieces|
  {
    hide Contract, Prompt, Swallows, CutAtMessageEnd, Continued, Settled, EndsMessage;
    var d := tls.decrypt(link.consumed, link.buffer);
    if link.buffer == [] {
      NoCutAtTheStart(tls, link, plaintext, at);
      CutsOfAFill(tls, link, plaintext, at);
      SwallowingNothing(tls, link, plaintext);
      CutsAtMessageEndsSwallow(tls, link.Fill(), plaintext, at);
    } else {
      SwallowingTurn(tls, link, plaintext);
      UndecidedIsNoEnd(tls, link, plaintext, at);
      if d.Incomplete? {
        CutsOfAFill(tls, link, plaintext, at);
        CutsAtMessageEndsSwallow(tls, link.Fill(), plaintext, at);
      } else if d.Record? {
        CutsPastARecord(tls, link, plaintext, d.plain, d.used, at);
        CutsAtMessageEndsSwallow(tls, link.Drop(d.used), plaintext + d.plain, at - d.used);
      } else if d.used < |link.buffer| {
        CutsPastAMessage(tls, link, plaintext, d.used, at);
        AfterSettling(tls, link, d.used);
        var n := Settled(tls, link.Drop(d.used).consumed, link.Drop(d.used).Rest()).value;
        CutsAtMessageEndsSwallow(tls, Continued(tls, link.Drop(d.used)).value, plaintext, at - d.used - n);
      }
    }
  }

  lemma NoCutAtTheStart(tls: Provider, link: Link, plaintext: seq<byte>, at: nat)
    requires Prompt(tls) && link.buffer == [] && CutAtMessageEnd(tls, link, plaintext, at)
    ensures at > 0 && link.pieces != []
  {
    MessagesEndInside(tls, link.consumed, link.Rest(), plaintext, at);
  }

  /** Whoever still lets a message end ahead is not rejected, and if undecided, can receive. */
  lemma UndecidedIsNoEnd(tls: Provider, link: Link, plaintext: seq<byte>, at: nat)
    requires Contract(tls) && Prompt(tls) && link.buffer != [] && CutAtMessageEnd(tls, link, plaintext, at)
    ensures var d := tls.decrypt(link.consumed, link.buffer);
            && !d.Rejected?
            && (d.Incomplete? ==> at > |link.buffer| && link.CanReceive())
  {
    DecidedOnTheRest(tls, link);
    if tls.decrypt(link.consumed, link.buffer).Incomplete? {
      IncompleteEndsLater(tls, link, plaintext, at);
    }
  }

  /** Some receive ends where the uncut stream ends a message met before the verdict. */
  ghost predicate SomeCutAtAMessageEnd(tls: Provider, link: Link) {
    exists at :: CutAtMessageEnd(tls, link, [], at)
  }

  /** The exact condition on stream and cuts: the response is that of the uncut stream
      unless some receive ends at the end of a post-handshake message met before the
      verdict (or the uncut stream fails the same way). */
  lemma ResultIsTheStreamsUnlessCutAtAMessageEnd(tls: Provider, consumed: seq<byte>, pending: seq<byte>,
                                                 pieces: seq<seq<byte>>)
    requires Contract(tls) && Prompt(tls) && AllPieces(pieces)
    ensures var link := Link(consumed, pending, pieces);
            var response := Response(tls, consumed, pending + Concat(pieces));
            Received(tls, link, []) == response <==> !SomeCutAtAMessageEnd(tls, link) || response == Err(TlsFailed)
  {
    hide Received, Response, CutAtMessageEnd, Swallows;
    var link := Link(consumed, pending, pieces);
    ResultIsTheStreamsUnlessSwallowed(tls, consumed, pending, pieces);
    if Swallows(tls, link, []) {
      var at := SwallowedAtItsEnd(tls, link, []);
    } else if at :| CutAtMessageEnd(tls, link, [], at) {
      CutsAtMessageEndsSwallow(tls, link, [], at);
    }
  }

  /** One receive a byte. */
  function ByteByByte(stream: seq<byte>): (pieces: seq<seq<byte>>)
    ensures Concat(pieces) == stream && |pieces| == |stream|
    ensures forall i :: 0 <= i < |pieces| ==> |pieces[i]| == 1
  {
    if stream == [] then [] else [stream[..1]] + ByteByByte(stream[1..])
  }

  lemma {:induction false} EveryOffsetIsABoundary(buffered: nat, stream: seq<byte>, at: nat)
    requires buffered <= at <= buffered + |stream|
    ensures Boundary(buffered, ByteByByte(stream), at)
    decreases |stream|
  {
    if at != buffered {
      EveryOffsetIsABoundary(buffered + 1, stream[1..], at);
    }
  }

  ghost predicate SameForEveryCut(tls: Provider, consumed: seq<byte>, stream: seq<byte>) {
    forall pieces | AllPieces(pieces) && Concat(pieces) == stream ::
      Received(tls, Link(consumed, [], pieces), []) == Response(tls, consumed, stream)
  }

  ghost predicate SomeMessageEnds(tls: Provider, consumed: seq<byte>, stream: seq<byte>) {
    exists at :: EndsMessage(tls, consumed, stream, [], at)
  }

  /** And on the stream alone: every way of receiving it gives one result if and only if no
      post-handshake message ends before its verdict, or that verdict is the failure. */
  lemma EveryCutAgreesExactlyWithoutMessages(tls: Provider, consumed: seq<byte>, stream: seq<byte>)
    requires Contract(tls) && Prompt(tls)
    ensures SameForEveryCut(tls, consumed, stream)
       <==> (!SomeMessageEnds(tls, consumed, stream) || Response(tls, consumed, stream) == Err(TlsFailed))
  {
    hide Received, Response, EndsMessage;
    if at :| EndsMessage(tls, consumed, stream, [], at) {
      MessagesEndInside(tls, consumed, stream, [], at);
      var pieces := ByteByByte(stream);
      EveryOffsetIsABoundary(0, stream, at);
      assert [] + Concat(pieces) == stream;
      assert CutAtMessageEnd(tls, Link(consumed, [], pieces), [], at);
      ResultIsTheStreamsUnlessCutAtAMessageEnd(tls, consumed, [], pieces);
    }
    forall pieces | AllPieces(pieces) && Concat(pieces) == stream
      ensures !SomeMessageEnds(tls, consumed, stream) || Response(tls, consumed, stream) == Err(TlsFailed)
              ==> Received(tls, Link(consumed, [], pieces), []) == Response(tls, consumed, stream)
    {
      assert [] + Concat(pieces) == stream;
      ResultIsTheStreamsUnlessCutAtAMessageEnd(tls, consumed, [], pieces);
    }
  }

  // ---------------------------------------------------------------- witnesses

  /** The provider of the counterexample is prompt, so the condition applies to it. */
  lemma SwallowingIsPrompt()
    ensures Contract(Swallowing()) && Prompt(Swallowing())
  {
    SwallowingKeepsTheContract();
  }

  /** A provider that reports a message without consuming it, so that it stays as EXTRA. */
  function Leaving(): Provider {
    Provider(
      (c: seq<byte>, b: seq<byte>) =>
        if b == [] then Incomplete else if b[0] == 1 then PostHandshake(0) else Record(b[..1], 1),
      (c: seq<byte>, b: seq<byte>) => if b == [] then NeedsMore else Done(1),
      (p: seq<byte>) => p != [])
  }

  lemma LeavingLeavesMessages()
    ensures Contract(Leaving()) && LeavesMessage(Leaving())
  {
  }
}
