// How the judge's monitor collects the head of a response from its chunks.
module ResponseMonitor {
  import opened Text
  import opened RequestHelper

  // `checks` counts the status checks made, `destroyed` whether one of them closed the socket.
  datatype Monitor = Monitor(
    length: nat, receivedHead: string, receivedHeadDone: bool, checks: nat, destroyed: bool)

  const FRESH := Monitor(0, "", false, 0, false)

  function Words(line: string): seq<string> {
    Split(line, " ")
  }

  // `split('\n')` keeps the carriage return on the first line; `split(' ', 3)` keeps three words.
  predicate BadStatus(head: string) {
    var words := Words(Split(head, "\n")[0]);
    && |words| >= 3
    && var code := words[1];
    && |code| == 3 && IsDigit(code[0]) && IsDigit(code[1]) && IsDigit(code[2])
    && !(200 <= ThreeDigits(code) < 300)
  }

  function HeadOf(stream: string): string {
    var k := IndexOf(stream, BLANK_LINE);
    if k == -1 then stream else stream[..k]
  }

  function Step(m: Monitor, data: Buffer): Monitor {
    var m1 := m.(length := m.length + |data|);
    if IsSecured(data) || m.receivedHeadDone then m1
    else
      var head := m.receivedHead + data;
      if !Contains(head, BLANK_LINE) then m1.(receivedHead := head)
      else m1.(receivedHead := HeadOf(head), receivedHeadDone := true, checks := m.checks + 1,
               destroyed := m.destroyed || BadStatus(HeadOf(head)))
  }

  function Feed(chunks: seq<Buffer>): Monitor {
    if chunks == [] then FRESH
    else Step(Feed(chunks[..|chunks| - 1]), chunks[|chunks| - 1])
  }

  class RequestResponseMonitor {
    var length: nat
    var receivedHead: string
    var receivedHeadDone: bool
    var checks: nat
    var destroyed: bool

    function View(): Monitor
      reads this
    {
      Monitor(length, receivedHead, receivedHeadDone, checks, destroyed)
    }

    constructor ()
      ensures View() == FRESH
    {
      length, receivedHead, receivedHeadDone, checks, destroyed := 0, "", false, 0, false;
    }

    method OnSocketData(data: Buffer)
      modifies this
      ensures View() == Step(old(View()), data)
    {
      length := length + |data|;
      if IsSecured(data) {
        return;
      }
      if !receivedHeadDone {
        receivedHead := receivedHead + data;
        if Contains(receivedHead, BLANK_LINE) {
          receivedHead := Split(receivedHead, BLANK_LINE)[0];
          receivedHeadDone := true;
        }
        if receivedHeadDone {
          checks := checks + 1;
          if BadStatus(receivedHead) {
            destroyed := true;
          }
        }
      }
    }
  }

  // ---------------------------------------------------------------- independence of the cut

  function PlainBytes(chunks: seq<Buffer>): string {
    if chunks == [] then ""
    else
      var last := chunks[|chunks| - 1];
      PlainBytes(chunks[..|chunks| - 1]) + if IsSecured(last) then "" else last
  }

  function Total(chunks: seq<Buffer>): nat {
    if chunks == [] then 0 else Total(chunks[..|chunks| - 1]) + |chunks[|chunks| - 1]|
  }

  // What the monitor knows depends only on the bytes outside TLS chunks, not on how they were cut.
  lemma {:induction false} HeadOfStream(chunks: seq<Buffer>)
    ensures var m, stream := Feed(chunks), PlainBytes(chunks);
      && m.receivedHead == HeadOf(stream)
      && m.receivedHeadDone == Contains(stream, BLANK_LINE)
      && m.length == Total(chunks)
      && m.checks == (if Contains(stream, BLANK_LINE) then 1 else 0)
      && m.destroyed == (Contains(stream, BLANK_LINE) && BadStatus(HeadOf(stream)))
  {
    if chunks != [] {
      var n := |chunks| - 1;
      HeadOfStream(chunks[..n]);
      var stream := PlainBytes(chunks[..n]);
      if IsSecured(chunks[n]) {
        assert stream + "" == stream;
      } else if Contains(stream, BLANK_LINE) {
        FindExtends(stream, chunks[n], BLANK_LINE);
        var k := IndexOf(stream, BLANK_LINE);
        assert (stream + chunks[n])[..k] == stream[..k];
      }
    }
  }

  lemma {:induction false} PlainIsConcat(chunks: seq<Buffer>)
    requires forall c :: c in chunks ==> !IsSecured(c)
    ensures PlainBytes(chunks) == Concat(chunks)
    ensures Total(chunks) == |Concat(chunks)|
  {
    if chunks != [] {
      PlainIsConcat(chunks[..|chunks| - 1]);
    }
  }

  // Fragmentation independence: two ways of cutting one stream, with no chunk starting like TLS,
  // leave the monitor in the same state.
  lemma CutsAgree(a: seq<Buffer>, b: seq<Buffer>)
    requires forall c :: c in a ==> !IsSecured(c)
    requires forall c :: c in b ==> !IsSecured(c)
    requires Concat(a) == Concat(b)
    ensures Feed(a) == Feed(b)
  {
    PlainIsConcat(a);
    PlainIsConcat(b);
    HeadOfStream(a);
    HeadOfStream(b);
  }
}
