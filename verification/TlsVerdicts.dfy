/** What the TLS receive loop answers, spelled out on the bytes of the uncut stream: which
    error each way of ending gives, and which record decides. */
module TlsVerdicts {
  import opened Bytes
  import opened TlsReceive

  /** A record, or a post-handshake message with the handshake bytes it leads to. */
  datatype Item = Data(plain: seq<byte>, used: nat) | Message(used: nat, settled: nat) {
    function Size(): nat {
      match this
      case Data(_, used) => used
      case Message(used, settled) => used + settled
    }

    function Plain(): seq<byte> {
      match this
      case Data(plain, _) => plain
      case Message(_, _) => []
    }
  }

  function Width(items: seq<Item>): nat {
    if items == [] then 0 else items[0].Size() + Width(items[1..])
  }

  function Text(items: seq<Item>): seq<byte> {
    if items == [] then [] else items[0].Plain() + Text(items[1..])
  }

  /** The provider reads these items off the front of an uncut stream. */
  predicate Begins(tls: Provider, consumed: seq<byte>, rest: seq<byte>, items: seq<Item>)
    decreases |items|
  {
    items == [] ||
    (rest != [] &&
     match items[0]
     case Data(plain, used) =>
       && tls.decrypt(consumed, rest) == Record(plain, used)
       && 0 < used <= |rest|
       && Begins(tls, consumed + rest[..used], rest[used..], items[1..])
     case Message(used, settled) =>
       && tls.decrypt(consumed, rest) == PostHandshake(used)
       && used < |rest| && used + settled <= |rest|
       && Settled(tls, consumed + rest[..used], rest[used..]) == Some(settled)
       && Begins(tls, consumed + rest[..used + settled], rest[used + settled..], items[1..]))
  }

  /** After each record the plaintext so far is at most 16384 bytes and incomplete. */
  predicate NeverStops(tls: Provider, items: seq<Item>, plaintext: seq<byte>)
    decreases |items|
  {
    items == [] ||
    match items[0]
    case Data(plain, _) =>
      |plaintext + plain| <= 16384 && !tls.completeJson(plaintext + plain) && NeverStops(tls, items[1..], plaintext + plain)
    case Message(_, _) => NeverStops(tls, items[1..], plaintext)
  }

  function StreamVerdict(tls: Provider, consumed: seq<byte>, rest: seq<byte>, plaintext: seq<byte>): Result<seq<byte>, AuthError> {
    var (plains, ending) := Records(tls, consumed, rest);
    Verdict(tls, plains, ending, plaintext)
  }

  lemma PastData(tls: Provider, consumed: seq<byte>, rest: seq<byte>, plaintext: seq<byte>, plain: seq<byte>, used: nat)
    requires rest != [] && tls.decrypt(consumed, rest) == Record(plain, used) && 0 < used <= |rest|
    requires |plaintext + plain| <= 16384 && !tls.completeJson(plaintext + plain)
    ensures StreamVerdict(tls, consumed, rest, plaintext)
         == StreamVerdict(tls, consumed + rest[..used], rest[used..], plaintext + plain)
  {
    var (plains, ending) := Records(tls, consumed + rest[..used], rest[used..]);
    assert ([plain] + plains)[1..] == plains;
  }

  lemma {:induction false} PastItems(tls: Provider, consumed: seq<byte>, rest: seq<byte>, items: seq<Item>, plaintext: seq<byte>)
    requires Begins(tls, consumed, rest, items) && NeverStops(tls, items, plaintext)
    ensures var w := Width(items);
            && w <= |rest|
            && StreamVerdict(tls, consumed, rest, plaintext)
               == StreamVerdict(tls, consumed + rest[..w], rest[w..], plaintext + Text(items))
    decreases |items|
  {
    hide StreamVerdict, Begins, NeverStops, Text;
    if items == [] {
      NoText(items);
      assert consumed + rest[..0] == consumed && rest[0..] == rest && plaintext + [] == plaintext;
    } else {
      var n, tail, text := items[0].Size(), items[1..], plaintext + items[0].Plain();
      PastFirst(tls, consumed, rest, items, plaintext);
      PastItems(tls, consumed + rest[..n], rest[n..], tail, text);
      ConsumeTwice(consumed, rest, n, Width(tail));
      JoinText(plaintext, items);
    }
  }

  lemma NoText(items: seq<Item>)
    requires items == []
    ensures Text(items) == []
  {
  }

  lemma JoinText(plaintext: seq<byte>, items: seq<Item>)
    requires items != []
    ensures (plaintext + items[0].Plain()) + Text(items[1..]) == plaintext + Text(items)
  {
  }

  lemma PastFirst(tls: Provider, consumed: seq<byte>, rest: seq<byte>, items: seq<Item>, plaintext: seq<byte>)
    requires items != [] && Begins(tls, consumed, rest, items) && NeverStops(tls, items, plaintext)
    ensures var n, text := items[0].Size(), plaintext + items[0].Plain();
            && n <= |rest|
            && Begins(tls, consumed + rest[..n], rest[n..], items[1..])
            && NeverStops(tls, items[1..], text)
            && StreamVerdict(tls, consumed, rest, plaintext) == StreamVerdict(tls, consumed + rest[..n], rest[n..], text)
  {
    match items[0]
    case Data(plain, used) =>
      hide StreamVerdict;
      PastData(tls, consumed, rest, plaintext, plain, used);
    case Message(used, settled) =>
      RecordsPast(tls, consumed, rest, used, settled);
      hide Records;
      assert plaintext + [] == plaintext;
  }

  /** What comes next after items that did not stop the loop decides. */
  lemma NextDecides(tls: Provider, consumed: seq<byte>, rest: seq<byte>, text: seq<byte>)
    requires Consumes(tls)
    ensures rest != [] ==> DecryptedOk(tls.decrypt(consumed, rest), rest)
    ensures var v := StreamVerdict(tls, consumed, rest, text);
            && (rest == [] && text == [] ==> v == Err(IoFailed))
            && (rest == [] && text != [] ==> v == Err(MalformedResponse))
    ensures rest != [] ==>
            var v, d := StreamVerdict(tls, consumed, rest, text), tls.decrypt(consumed, rest);
            && (d.Incomplete? ==> v == Err(IoFailed))
            && (d.Rejected? ==> v == Err(TlsFailed))
            && (d.PostHandshake? && d.used == |rest| ==> v == Err(TlsFailed))
            && (d.PostHandshake? && d.used < |rest| && Settled(tls, consumed + rest[..d.used], rest[d.used..]).None? ==>
                  v == Err(TlsFailed))
            && (d.Record? && |text + d.plain| > 16384 ==> v == Err(ResponseTooLarge))
            && (d.Record? && |text + d.plain| <= 16384 && tls.completeJson(text + d.plain) ==> v == Ok(text + d.plain))
  {
  }

  /** The answer of the receive loop, however the stream is cut (unless the cut swallowed a
      message). With the items at the front of the stream not stopping the loop, `text` their
      plaintext and `rest` what follows them:
      - the stream ends there: an I/O failure if there was no plaintext at all, a malformed
        response if there was some;
      - it ends inside a record: an I/O failure; the provider fails, or the handshake after a
        message does: a TLS failure;
      - the next record brings the plaintext over 16384 bytes: too large; or completes it:
        success with exactly that plaintext. */
  lemma ReceiveAnswers(tls: Provider, link: Link, items: seq<Item>)
    requires Contract(tls) && AllPieces(link.pieces) && !Swallows(tls, link, [])
    requires Begins(tls, link.consumed, link.Rest(), items) && NeverStops(tls, items, [])
    ensures Width(items) <= |link.Rest()|
    ensures var r, text, w := Received(tls, link, []), Text(items), Width(items);
            var consumed, rest := link.consumed + link.Rest()[..w], link.Rest()[w..];
            && (rest == [] && text == [] ==> r == Err(IoFailed))
            && (rest == [] && text != [] ==> r == Err(MalformedResponse))
            && (rest != [] && tls.decrypt(consumed, rest).Incomplete? ==> r == Err(IoFailed))
            && (rest != [] && tls.decrypt(consumed, rest).Rejected? ==> r == Err(TlsFailed))
            && (rest != [] && tls.decrypt(consumed, rest).PostHandshake? ==>
                  var used := tls.decrypt(consumed, rest).used;
                  used <= |rest| && (used == |rest| || Settled(tls, consumed + rest[..used], rest[used..]).None?
                                     ==> r == Err(TlsFailed)))
            && (rest != [] && tls.decrypt(consumed, rest).Record? ==>
                  var more := text + tls.decrypt(consumed, rest).plain;
                  && (|more| > 16384 ==> r == Err(ResponseTooLarge))
                  && (|more| <= 16384 && tls.completeJson(more) ==> r == Ok(more)))
  {
    ReceiveIgnoresCuts(tls, link, []);
    PastItems(tls, link.consumed, link.Rest(), items, []);
    var w := Width(items);
    assert [] + Text(items) == Text(items);
    NextDecides(tls, link.consumed + link.Rest()[..w], link.Rest()[w..], Text(items));
  }

  /** A server that closes at once, and one that closes after unfinished plaintext. */
  lemma CloseAnswers(tls: Provider, consumed: seq<byte>, buffer: seq<byte>, plain: seq<byte>)
    requires Contract(tls)
    ensures Received(tls, Link(consumed, [], []), []) == Err(IoFailed)
    ensures buffer != [] && tls.decrypt(consumed, buffer) == Record(plain, |buffer|)
            && 0 < |plain| <= 16384 && !tls.completeJson(plain) ==>
              Received(tls, Link(consumed, buffer, []), []) == Err(MalformedResponse)
  {
    assert [] + plain == plain;
    assert Link(consumed, buffer, []).Drop(|buffer|) == Link(consumed + buffer, [], []);
  }
}
