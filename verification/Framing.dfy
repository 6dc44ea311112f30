/** Length-prefixed messages over a stream of octets. */
module Framing {
  import opened Seqs

  type Octet = x: int | 0 <= x < 256

  const TWO_TO_THE_32 := 0x1_0000_0000

  const MAX_BODY_LENGTH := 1048576

  /** A header is the body length in network order: most significant first. */
  function HostToNetwork(x: nat): (octets: seq<Octet>)
    requires x < TWO_TO_THE_32
    ensures |octets| == 4
  {
    [x / 0x100_0000, x / 0x1_0000 % 256, x / 0x100 % 256, x % 256]
  }

  function NetworkToHost(octets: seq<Octet>): (x: nat)
    requires |octets| == 4
    ensures x < TWO_TO_THE_32
  {
    (octets[0] as int) * 0x100_0000 + (octets[1] as int) * 0x1_0000 + (octets[2] as int) * 0x100 + octets[3]
  }

  lemma HeaderRoundTrip(x: nat)
    requires x < TWO_TO_THE_32
    ensures NetworkToHost(HostToNetwork(x)) == x
  {
    var a, b, c := x / 0x100, x / 0x1_0000, x / 0x100_0000;
    assert x == a * 0x100 + x % 256;
    assert b == a / 0x100 && c == b / 0x100;
  }

  lemma HeaderRoundTripBack(octets: seq<Octet>)
    requires |octets| == 4
    ensures HostToNetwork(NetworkToHost(octets)) == octets
  {
    var x := NetworkToHost(octets);
    assert x / 0x100 == (octets[0] as int) * 0x1_0000 + (octets[1] as int) * 0x100 + octets[2];
    assert x / 0x1_0000 == (octets[0] as int) * 0x100 + octets[1];
    assert x / 0x100_0000 == octets[0];
  }

  /** The order of octet sequences: the first octet that differs decides. */
  predicate Before(a: seq<Octet>, b: seq<Octet>) {
    if a == [] || b == [] then a == [] && b != []
    else a[0] < b[0] || (a[0] == b[0] && Before(a[1..], b[1..]))
  }

  lemma BeforeOne(a: seq<Octet>, b: seq<Octet>)
    requires |a| == |b| == 1
    ensures Before(a, b) <==> a[0] < b[0]
  {
    assert !Before(a[1..], b[1..]);
  }

  lemma BeforeFour(a: seq<Octet>, b: seq<Octet>)
    requires |a| == |b| == 4
    ensures Before(a, b)
       <==> || a[0] < b[0]
            || (a[0] == b[0] && (a[1] < b[1] || (a[1] == b[1] && (a[2] < b[2] || (a[2] == b[2] && a[3] < b[3])))))
  {
    BeforeOne(a[3..], b[3..]);
    assert a[2..][1..] == a[3..] && b[2..][1..] == b[3..];
    assert Before(a[2..], b[2..]) <==> a[2] < b[2] || (a[2] == b[2] && Before(a[3..], b[3..]));
    assert a[1..][1..] == a[2..] && b[1..][1..] == b[2..];
    assert Before(a[1..], b[1..]) <==> a[1] < b[1] || (a[1] == b[1] && Before(a[2..], b[2..]));
  }

  /** Network order: headers stand in the order of the lengths they give, so
      the first octet counts most. */
  lemma HeadersInOrderOfLength(x: nat, y: nat)
    requires x < TWO_TO_THE_32 && y < TWO_TO_THE_32
    ensures x < y <==> Before(HostToNetwork(x), HostToNetwork(y))
  {
    HeaderRoundTrip(x);
    HeaderRoundTrip(y);
    BeforeFour(HostToNetwork(x), HostToNetwork(y));
    hide HostToNetwork, Before;
    ValueOrder(HostToNetwork(x), HostToNetwork(y));
  }

  lemma ValueOrder(a: seq<Octet>, b: seq<Octet>)
    requires |a| == |b| == 4
    ensures NetworkToHost(a) < NetworkToHost(b)
       <==> || a[0] < b[0]
            || (a[0] == b[0] && (a[1] < b[1] || (a[1] == b[1] && (a[2] < b[2] || (a[2] == b[2] && a[3] < b[3])))))
  {
  }

  /** The header says how long the body is; the program leaves it to whoever
      makes a message that the body really is that long. */
  datatype Message = Message(header: seq<Octet>, body: seq<Octet>)

  ghost predicate MessageOk(m: Message) {
    |m.header| == 4 && NetworkToHost(m.header) == |m.body|
  }

  function MakeMessage(body: seq<Octet>): (m: Message)
    requires |body| < TWO_TO_THE_32
    ensures MessageOk(m) && m.body == body
  {
    HeaderRoundTrip(|body|);
    Message(HostToNetwork(|body|), body)
  }

  function Frame(m: Message): seq<Octet> {
    m.header + m.body
  }

  /** What one receive makes of a stream: a message or none, and what is left
      to be read.  Reading past the end uses the stream up. */
  function Receive(stream: seq<Octet>): (Option<Message>, seq<Octet>) {
    if |stream| < 4 then (None, [])
    else
      var length := NetworkToHost(stream[..4]);
      if length > MAX_BODY_LENGTH then (None, stream[4..])
      else if |stream| - 4 < length then (None, [])
      else (Some(Message(stream[..4], stream[4..4 + length])), stream[4 + length..])
  }

  /** A socket.  room is how many octets it still takes before the link
      breaks; what is written past that is lost. */
  class Connection {
    var sent: seq<Octet>
    var room: nat
    var incoming: seq<Octet>

    constructor (room: nat, incoming: seq<Octet>)
      ensures sent == [] && this.room == room && this.incoming == incoming
    {
      sent, this.room, this.incoming := [], room, incoming;
    }

    method Write(octets: seq<Octet>) returns (error: bool)
      modifies this
      ensures error <==> |octets| > old(room)
      ensures sent == old(sent) + octets[..if error then old(room) else |octets|]
      ensures room == if error then 0 else old(room) - |octets|
      ensures incoming == old(incoming)
    {
      error := |octets| > room;
      if error {
        sent, room := sent + octets[..room], 0;
      } else {
        sent, room := sent + octets, room - |octets|;
      }
    }

    method Read(n: nat) returns (octets: seq<Octet>, error: bool)
      modifies this
      ensures error <==> n > |old(incoming)|
      ensures !error ==> octets == old(incoming)[..n] && incoming == old(incoming)[n..]
      ensures error ==> incoming == []
      ensures sent == old(sent) && room == old(room)
    {
      error := n > |incoming|;
      if error {
        octets, incoming := incoming, [];
      } else {
        octets, incoming := incoming[..n], incoming[n..];
      }
    }

    /** True exactly when the whole frame went out; otherwise the part of it
        that the link still took did. */
    method SendMessage(m: Message) returns (ok: bool)
      requires MessageOk(m)
      modifies this
      ensures ok <==> |Frame(m)| <= old(room)
      ensures sent == old(sent) + Frame(m)[..if ok then |Frame(m)| else old(room)]
      ensures room == if ok then old(room) - |Frame(m)| else 0
      ensures incoming == old(incoming)
    {
      var error := Write(m.header);
      assert error ==> Frame(m)[..old(room)] == m.header[..old(room)];
      if !error {
        error := Write(m.body);
        assert error ==> Frame(m)[..old(room)] == m.header + m.body[..old(room) - |m.header|];
      }
      ok := !error;
    }

    method ReceiveMessage() returns (message: Option<Message>)
      modifies this
      ensures message == Receive(old(incoming)).0 && incoming == Receive(old(incoming)).1
      ensures sent == old(sent) && room == old(room)
    {
      message := None;
      var header, error := Read(4);
      if !error {
        var length := NetworkToHost(header);
        if length <= MAX_BODY_LENGTH {
          var body;
          body, error := Read(length);
          assert !error ==> old(incoming)[4..][..length] == old(incoming)[4..4 + length];
          assert !error ==> old(incoming)[4..][length..] == old(incoming)[4 + length..];
          if !error {
            message := Some(Message(header, body));
          }
        }
      }
    }
  }

  // ---- Round trips -----------------------------------------------------------

  function FrameAll(messages: seq<Message>): seq<Octet> {
    if messages == [] then [] else Frame(messages[0]) + FrameAll(messages[1..])
  }

  /** Receiving n times. */
  function ReceiveMany(stream: seq<Octet>, n: nat): (seq<Option<Message>>, seq<Octet>)
    decreases n
  {
    if n == 0 then ([], stream)
    else
      var (first, rest) := Receive(stream);
      var (others, left) := ReceiveMany(rest, n - 1);
      ([first] + others, left)
  }

  function Delivered(messages: seq<Message>): seq<Option<Message>> {
    if messages == [] then [] else [Some(messages[0])] + Delivered(messages[1..])
  }

  lemma FrameParts(m: Message, suffix: seq<Octet>)
    requires MessageOk(m)
    ensures var stream := Frame(m) + suffix;
            && stream[..4] == m.header && stream[4..] == m.body + suffix
            && stream[4..4 + |m.body|] == m.body && stream[4 + |m.body|..] == suffix
  {
  }

  /** A frame is received as it was sent if it is short enough; otherwise
      only its header is consumed. */
  lemma ReceiveFrame(m: Message, suffix: seq<Octet>)
    requires MessageOk(m)
    ensures Receive(Frame(m) + suffix)
         == if |m.body| <= MAX_BODY_LENGTH then (Some(m), suffix) else (None, m.body + suffix)
    ensures Receive(Frame(m) + suffix).0.Some? <==> |m.body| <= 1024 * 1024
  {
    FrameParts(m, suffix);
  }

  /** Anything less than a whole frame yields no message; and if the body is
      short enough, it uses up the stream. */
  lemma ReceivePartialFrame(m: Message, k: nat)
    requires MessageOk(m) && k < |Frame(m)|
    ensures Receive(Frame(m)[..k]).0 == None
    ensures |m.body| <= MAX_BODY_LENGTH ==> Receive(Frame(m)[..k]).1 == []
  {
    if k >= 4 {
      assert Frame(m)[..k][..4] == m.header;
    }
  }

  /** How many messages lie wholly within the first k octets. */
  function WholeFrames(messages: seq<Message>, k: nat): (n: nat)
    ensures n <= |messages|
  {
    if messages == [] || k < |Frame(messages[0])| then 0
    else 1 + WholeFrames(messages[1..], k - |Frame(messages[0])|)
  }

  lemma {:induction false} FrameAllLonger(messages: seq<Message>, n: nat)
    requires n < |messages|
    ensures FrameAll(messages[..n + 1]) == FrameAll(messages[..n]) + Frame(messages[n])
  {
    if n == 0 {
      assert messages[..1] == [messages[0]] && [messages[0]][1..] == [];
    } else {
      FrameAllLonger(messages[1..], n - 1);
      assert messages[..n + 1][1..] == messages[1..][..n] && messages[..n][1..] == messages[1..][..n - 1];
    }
  }

  /** They end before the cut, and the next one does not. */
  lemma {:induction false} WholeFramesFit(messages: seq<Message>, k: nat)
    ensures var n := WholeFrames(messages, k);
            && |FrameAll(messages[..n])| <= k
            && (n < |messages| ==> k < |FrameAll(messages[..n + 1])|)
  {
    var n := WholeFrames(messages, k);
    if n < |messages| {
      FrameAllLonger(messages, n);
    }
    if n > 0 {
      WholeFramesFit(messages[1..], k - |Frame(messages[0])|);
      assert messages[..n][1..] == messages[1..][..n - 1];
      if n < |messages| {
        assert messages[..n + 1][1..] == messages[1..][..n];
      }
    }
  }

  function Nothing(n: nat): seq<Option<Message>> {
    if n == 0 then [] else [None] + Nothing(n - 1)
  }

  lemma {:induction false} NothingToReceive(n: nat)
    ensures ReceiveMany([], n) == (Nothing(n), [])
  {
    if n > 0 {
      NothingToReceive(n - 1);
    }
  }

  lemma DeliveredFirst(m: Message, others: seq<Message>)
    ensures Delivered([m] + others) == [Some(m)] + Delivered(others)
  {
    assert ([m] + others)[1..] == others;
  }

  lemma ReceiveFirst(m: Message, rest: seq<Octet>, n: nat)
    requires MessageOk(m) && |m.body| <= MAX_BODY_LENGTH
    ensures ReceiveMany(Frame(m) + rest, n + 1).0 == [Some(m)] + ReceiveMany(rest, n).0
  {
    ReceiveFrame(m, rest);
  }

  /** The first k octets give these messages, and after them nothing. */
  ghost predicate CutGives(stream: seq<Octet>, messages: seq<Message>) {
    forall more: nat :: ReceiveMany(stream, |messages| + more).0 == Delivered(messages) + Nothing(more)
  }

  lemma CutLater(m: Message, rest: seq<Octet>, others: seq<Message>)
    requires MessageOk(m) && |m.body| <= MAX_BODY_LENGTH && CutGives(rest, others)
    ensures CutGives(Frame(m) + rest, [m] + others)
  {
    hide Frame, ReceiveMany, Delivered, MessageOk;
    forall more: nat
      ensures ReceiveMany(Frame(m) + rest, |others| + 1 + more).0 == Delivered([m] + others) + Nothing(more)
    {
      var got := ReceiveMany(rest, |others| + more).0;
      ReceiveFirst(m, rest, |others| + more);
      DeliveredFirst(m, others);
      assert [Some(m)] + (Delivered(others) + Nothing(more)) == [Some(m)] + Delivered(others) + Nothing(more);
    }
  }

  /** Wherever the link breaks, the messages sent wholly before that are
      received, and after them nothing, however often one tries. */
  lemma {:induction false} CutStream(messages: seq<Message>, k: nat)
    requires forall m :: m in messages ==> MessageOk(m) && |m.body| <= MAX_BODY_LENGTH
    requires k <= |FrameAll(messages)|
    ensures CutGives(FrameAll(messages)[..k], messages[..WholeFrames(messages, k)])
  {
    if messages == [] {
      NothingFromNothing();
    } else {
      var m, others := messages[0], messages[1..];
      assert m in messages && FrameAll(messages) == Frame(m) + FrameAll(others);
      if k < |Frame(m)| {
        assert messages[..0] == [];
        CutFirst(m, others, k);
      } else {
        var n, rest := WholeFrames(others, k - |Frame(m)|), FrameAll(others)[..k - |Frame(m)|];
        assert FrameAll(messages)[..k] == Frame(m) + rest;
        assert messages[..n + 1] == [m] + others[..n];
        hide Frame, FrameAll, CutGives, MessageOk, Delivered;
        CutStream(others, k - |Frame(m)|);
        CutLater(m, rest, others[..n]);
      }
    }
  }

  lemma NothingFromNothing()
    ensures CutGives([], [])
  {
    hide ReceiveMany, Nothing;
    forall more: nat
      ensures ReceiveMany([], more) == (Nothing(more), [])
    {
      NothingToReceive(more);
    }
  }

  lemma CutFirst(m: Message, others: seq<Message>, k: nat)
    requires MessageOk(m) && |m.body| <= MAX_BODY_LENGTH && k < |Frame(m)|
    ensures CutGives((Frame(m) + FrameAll(others))[..k], [])
  {
    var stream := Frame(m)[..k];
    assert (Frame(m) + FrameAll(others))[..k] == stream;
    ReceivePartialFrame(m, k);
    hide Receive, Frame, FrameAll, MessageOk;
    forall more: nat
      ensures ReceiveMany(stream, more).0 == Nothing(more)
    {
      if more > 0 {
        NothingToReceive(more - 1);
      }
    }
  }

  /** Whatever list of messages is sent, receiving as often yields that list
      and leaves the rest of the stream alone if and only if no body exceeds
      the maximum, which sending does not check. */
  lemma {:induction false} StreamRoundTrip(messages: seq<Message>, suffix: seq<Octet>)
    requires forall m :: m in messages ==> MessageOk(m)
    ensures ReceiveMany(FrameAll(messages) + suffix, |messages|) == (Delivered(messages), suffix)
       <==> forall m :: m in messages ==> |m.body| <= MAX_BODY_LENGTH
  {
    if messages == [] {
      assert FrameAll(messages) + suffix == suffix;
    } else {
      var m, others := messages[0], messages[1..];
      assert forall x :: x in messages <==> x == m || x in others;
      assert FrameAll(messages) + suffix == Frame(m) + (FrameAll(others) + suffix);
      ReceiveFrame(m, FrameAll(others) + suffix);
      if |m.body| <= MAX_BODY_LENGTH {
        StreamRoundTrip(others, suffix);
        var got := ReceiveMany(FrameAll(others) + suffix, |others|);
        assert ReceiveMany(FrameAll(messages) + suffix, |messages|) == ([Some(m)] + got.0, got.1);
        SameTails(m, others, got, suffix);
      } else {
        assert ReceiveMany(FrameAll(messages) + suffix, |messages|).0[0] == None;
        assert Delivered(messages)[0] == Some(m);
      }
    }
  }

  lemma SameTails(m: Message, others: seq<Message>, got: (seq<Option<Message>>, seq<Octet>), suffix: seq<Octet>)
    ensures ([Some(m)] + got.0, got.1) == ([Some(m)] + Delivered(others), suffix)
       <==> got == (Delivered(others), suffix)
  {
    assert ([Some(m)] + got.0)[1..] == got.0;
    assert ([Some(m)] + Delivered(others))[1..] == Delivered(others);
  }
}
