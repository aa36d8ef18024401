// The proxy server's life of a request: editing its header list, trying proxies until one works or
// the repeats are used up, and falling back to a direct connection.
module ProxyServer {
  import opened Text
  import opened Headers
  import Handles = SocketHandle

  // ---------------------------------------------------------------- onProxyRequest

  const SELECT_LEVEL := "Proxy-Select-Level"
  const SELECT_SPEED_LIMIT := "Proxy-Select-Speed-Limit"
  const SELECT_SSL := "Proxy-Select-SSL"
  const SELECT_FALLBACK := "Proxy-Select-Fallback"
  const SELECT_COUNTRY := "Proxy-Select-Country"
  const SELECT_PROXY := "Proxy-Select-Proxy"
  const VIA := "Via"
  const FORWARDED_FOR := "X-Forwarded-For"

  // The list without the headers that steer the choice of a proxy.
  function Stripped(list: seq<Field>): (r: seq<Field>)
    ensures forall f :: f in r ==> f in list && f.key != Lower(SELECT_FALLBACK)
  {
    var l1 := RemoveKey(list, Lower(SELECT_LEVEL));
    var l2 := RemoveKey(l1, Lower(SELECT_SPEED_LIMIT));
    var l3 := RemoveKey(l2, Lower(SELECT_SSL));
    var l4 := RemoveKey(l3, Lower(SELECT_FALLBACK));
    var l5 := RemoveKey(l4, Lower(SELECT_COUNTRY));
    RemoveKey(l5, Lower(SELECT_PROXY))
  }

  // `sender` is the client's address, `via` the text naming this proxy.
  function Edited(list: seq<Field>, level: int, sender: string, via: string): seq<Field> {
    if level == 3 then SetField(SetField(Stripped(list), FORWARDED_FOR, sender), VIA, via)
    else if level == 2 then SetField(Stripped(list), VIA, via)
    else Stripped(list)
  }

  // The first fallback header counts, if it has a value.
  predicate HasFallback(list: seq<Field>) {
    && list != []
    && if list[0].key == Lower(SELECT_FALLBACK) then list[0].value != "" else HasFallback(list[1..])
  }

  lemma {:induction false} NoFallbackKey(list: seq<Field>)
    requires forall f :: f in list ==> f.key != Lower(SELECT_FALLBACK)
    ensures !HasFallback(list)
  {
    if list != [] {
      NoFallbackKey(list[1..]);
    }
  }

  // The fallback header is gone before anyone asks for it.
  lemma EditedHasNoFallback(list: seq<Field>, level: int, sender: string, via: string)
    ensures !HasFallback(Edited(list, level, sender, via))
  {
    assert |Lower(FORWARDED_FOR)| == 15 && |Lower(VIA)| == 3 && |Lower(SELECT_FALLBACK)| == 21;
    NoFallbackKey(Edited(list, level, sender, via));
  }

  // ---------------------------------------------------------------- one request

  // The server's options and what the request itself fixes: whether it names its proxy, whether it is
  // a CONNECT request.
  datatype Config = Config(
    toProxy: bool, hasTarget: bool, maxRepeats: int, level: int,
    selected: bool, ssl: bool, sender: string, via: string)

  // What the environment answers to one round of asking for a proxy and connecting over it: the choice
  // fails, there is no proxy, or proxy `target` was dialled and its socket finished.
  datatype Try =
    | Rejected
    | NoTarget
    | Tried(target: nat, error: bool, socketError: bool, logFails: bool)

  // The same for a direct connection; the client's handle may be gone by then.
  datatype Direct = Direct(handleGone: bool, error: bool, socketError: bool)

  datatype End = ErrorAnswer | Finished | Abandoned

  datatype Event =
    | Ask
    | Dial(target: nat)
    | StateLog(target: nat, error: bool)
    | DialDirect(failed: bool)
    | Close(end: End)

  datatype Chain = Chain(trace: seq<Event>, repeat: int, list: seq<Field>)

  // A CONNECT attempt only counts as failed when the socket itself failed.
  predicate Failed(cfg: Config, error: bool, socketError: bool) {
    error && (cfg.ssl ==> socketError)
  }

  predicate MayRepeat(cfg: Config) {
    cfg.toProxy && !cfg.selected
  }

  function Left(cfg: Config, repeat: int): nat {
    if repeat < cfg.maxRepeats then cfg.maxRepeats - repeat else 0
  }

  function Fallbacks(list: seq<Field>): nat {
    if HasFallback(list) then 1 else 0
  }

  function Prefixed(events: seq<Event>, c: Chain): Chain {
    c.(trace := events + c.trace)
  }

  // `connectToExternProxy`, for the i-th answer of the environment.
  function Connect(cfg: Config, repeat: int, list: seq<Field>, tries: nat -> Try, i: nat, direct: Direct): Chain
    decreases Left(cfg, repeat), Fallbacks(list), 1
  {
    match tries(i)
    case Rejected => Chain([Ask, Close(ErrorAnswer)], repeat, list)
    case NoTarget => Chain([Ask, Close(Abandoned)], repeat, list)
    case Tried(target, error, socketError, logFails) =>
      var failed := Failed(cfg, error, socketError);
      // The log tells of any error of the handle, which for CONNECT need not fail the attempt.
      var events := [Ask, Dial(target), StateLog(target, error)];
      if logFails then Chain(events + [Close(Abandoned)], repeat, list)
      else Prefixed(events, After(cfg, repeat, list, failed, tries, i + 1, direct))
  }

  // `handleUpstreamAfterFinishedRequest` and `handleResponseAfterFinishedRequest`.
  function After(cfg: Config, repeat: int, list: seq<Field>, failed: bool, tries: nat -> Try, i: nat, direct: Direct): Chain
    decreases Left(cfg, repeat), Fallbacks(list), 0
  {
    if !failed then Chain([Close(Finished)], repeat, list)
    else if repeat < cfg.maxRepeats && MayRepeat(cfg) then Connect(cfg, repeat + 1, list, tries, i, direct)
    else if repeat >= cfg.maxRepeats && MayRepeat(cfg) && HasFallback(list) then
      if direct.handleGone then Chain([Close(if cfg.ssl then Abandoned else ErrorAnswer)], repeat, list)
      else
        var edited := Edited(list, cfg.level, cfg.sender, cfg.via);
        EditedHasNoFallback(list, cfg.level, cfg.sender, cfg.via);
        Directly(cfg, repeat, edited, tries, i, direct)
    else Chain([Close(ErrorAnswer)], repeat, list)
  }

  // The direct connection in `root` and `onServerConnect`.
  function Directly(cfg: Config, repeat: int, list: seq<Field>, tries: nat -> Try, i: nat, direct: Direct): Chain
    decreases Left(cfg, repeat), Fallbacks(list), 1
  {
    var failed := Failed(cfg, direct.error, direct.socketError);
    Prefixed([DialDirect(failed)], After(cfg, repeat, list, failed, tries, i, direct))
  }

  // `root` and `onServerConnect` for a fresh request.
  function Serve(cfg: Config, repeat: int, list: seq<Field>, tries: nat -> Try, direct: Direct): Chain {
    var edited := Edited(list, cfg.level, cfg.sender, cfg.via);
    if cfg.toProxy && cfg.hasTarget then Connect(cfg, repeat, edited, tries, 0, direct)
    else Directly(cfg, repeat, edited, tries, 0, direct)
  }

  // ---------------------------------------------------------------- the server

  class Server {
    const cfg: Config

    constructor (cfg: Config)
      ensures this.cfg == cfg
    {
      this.cfg := cfg;
    }

    method OnProxyRequest(handle: Handles.SocketHandle)
      modifies handle`headersList
      ensures handle.headersList == Edited(old(handle.headersList), cfg.level, cfg.sender, cfg.via)
    {
      handle.RemoveHeader(SELECT_LEVEL);
      handle.RemoveHeader(SELECT_SPEED_LIMIT);
      handle.RemoveHeader(SELECT_SSL);
      handle.RemoveHeader(SELECT_FALLBACK);
      handle.RemoveHeader(SELECT_COUNTRY);
      handle.RemoveHeader(SELECT_PROXY);
      if cfg.level == 3 {
        handle.SetHeader(FORWARDED_FOR, cfg.sender);
        handle.SetHeader(VIA, cfg.via);
      } else if cfg.level == 2 {
        handle.SetHeader(VIA, cfg.via);
      }
    }

    method HasFallbackHeader(handle: Handles.SocketHandle) returns (r: bool)
      ensures r == HasFallback(handle.headersList)
    {
      ghost var list := handle.headersList;
      assert list[0..] == list;
      for i := 0 to |handle.headersList|
        invariant handle.headersList == list
        invariant HasFallback(list[i..]) == HasFallback(list)
      {
        assert list[i..][1..] == list[i + 1..];
        if handle.headersList[i].key == Lower(SELECT_FALLBACK) {
          return handle.headersList[i].value != "";
        }
      }
      r := false;
    }

    method ConnectToExternProxy(handle: Handles.SocketHandle, tries: nat -> Try, i: nat, direct: Direct)
      returns (trace: seq<Event>)
      modifies handle`repeat, handle`headersList
      ensures Chain(trace, handle.repeat, handle.headersList)
           == Connect(cfg, old(handle.repeat), old(handle.headersList), tries, i, direct)
      decreases Left(cfg, handle.repeat), Fallbacks(handle.headersList), 1
    {
      match tries(i) {
        case Rejected => trace := [Ask, Close(ErrorAnswer)];
        case NoTarget => trace := [Ask, Close(Abandoned)];
        case Tried(target, error, socketError, logFails) =>
          var failed := Failed(cfg, error, socketError);
          trace := [Ask, Dial(target), StateLog(target, error)];
          if logFails {
            trace := trace + [Close(Abandoned)];
          } else {
            var rest := AfterFinishedRequest(handle, failed, tries, i + 1, direct);
            trace := trace + rest;
          }
      }
    }

    method AfterFinishedRequest(handle: Handles.SocketHandle, failed: bool, tries: nat -> Try, i: nat, direct: Direct)
      returns (trace: seq<Event>)
      modifies handle`repeat, handle`headersList
      ensures Chain(trace, handle.repeat, handle.headersList)
           == After(cfg, old(handle.repeat), old(handle.headersList), failed, tries, i, direct)
      decreases Left(cfg, handle.repeat), Fallbacks(handle.headersList), 0
    {
      if !failed {
        return [Close(Finished)];
      }
      var checkRepeats := cfg.toProxy && !cfg.selected;
      var fallback := HasFallbackHeader(handle);
      if handle.repeat < cfg.maxRepeats && checkRepeats {
        handle.repeat := handle.repeat + 1;
        trace := ConnectToExternProxy(handle, tries, i, direct);
      } else if handle.repeat >= cfg.maxRepeats && checkRepeats && fallback {
        if direct.handleGone {
          trace := [Close(if cfg.ssl then Abandoned else ErrorAnswer)];
        } else {
          EditedHasNoFallback(handle.headersList, cfg.level, cfg.sender, cfg.via);
          OnProxyRequest(handle);
          trace := ConnectDirectly(handle, tries, i, direct);
        }
      } else {
        trace := [Close(ErrorAnswer)];
      }
    }

    method ConnectDirectly(handle: Handles.SocketHandle, tries: nat -> Try, i: nat, direct: Direct)
      returns (trace: seq<Event>)
      modifies handle`repeat, handle`headersList
      ensures Chain(trace, handle.repeat, handle.headersList)
           == Directly(cfg, old(handle.repeat), old(handle.headersList), tries, i, direct)
      decreases Left(cfg, handle.repeat), Fallbacks(handle.headersList), 1
    {
      var failed := Failed(cfg, direct.error, direct.socketError);
      var rest := AfterFinishedRequest(handle, failed, tries, i, direct);
      trace := [DialDirect(failed)] + rest;
    }

    // `root` for a plain request and `onServerConnect` for a CONNECT request.
    method ServeRequest(handle: Handles.SocketHandle, tries: nat -> Try, direct: Direct)
      returns (trace: seq<Event>)
      modifies handle`repeat, handle`headersList
      ensures Chain(trace, handle.repeat, handle.headersList)
           == Serve(cfg, old(handle.repeat), old(handle.headersList), tries, direct)
    {
      OnProxyRequest(handle);
      if cfg.toProxy && cfg.hasTarget {
        trace := ConnectToExternProxy(handle, tries, 0, direct);
      } else {
        trace := ConnectDirectly(handle, tries, 0, direct);
      }
    }
  }

  // ---------------------------------------------------------------- what a chain looks like

  function Asks(t: seq<Event>): nat {
    if t == [] then 0 else (if t[0].Ask? then 1 else 0) + Asks(t[1..])
  }

  function Directs(t: seq<Event>): nat {
    if t == [] then 0 else (if t[0].DialDirect? then 1 else 0) + Directs(t[1..])
  }

  // The proxies dialled, in order.
  function Dialled(t: seq<Event>): seq<nat> {
    if t == [] then [] else (if t[0].Dial? then [t[0].target] else []) + Dialled(t[1..])
  }

  lemma CountsCons(e: Event, rest: seq<Event>)
    ensures Asks([e] + rest) == (if e.Ask? then 1 else 0) + Asks(rest)
    ensures Directs([e] + rest) == (if e.DialDirect? then 1 else 0) + Directs(rest)
    ensures Dialled([e] + rest) == if e.Dial? then [e.target] + Dialled(rest) else Dialled(rest)
  {
    assert ([e] + rest)[1..] == rest;
    assert [] + Dialled(rest) == Dialled(rest);
  }

  // Each dialled proxy is logged once, right away; nothing follows an attempt that worked but the
  // close; the chain closes once, at its end.
  ghost predicate Orderly(t: seq<Event>) {
    && t != []
    && (forall k :: 0 <= k < |t| ==> (t[k].Close? <==> k == |t| - 1))
    && (forall k :: 0 <= k < |t| && t[k].Dial? ==>
          k + 1 < |t| && t[k + 1].StateLog? && t[k + 1].target == t[k].target)
    && (forall k :: 0 <= k < |t| && t[k].StateLog? ==> k > 0 && t[k - 1] == Dial(t[k].target))
    && (forall k :: 0 <= k < |t| && t[k].StateLog? && !t[k].error ==> k == |t| - 2)
    && (forall k :: 0 <= k < |t| && t[k].DialDirect? && !t[k].failed ==> k == |t| - 2)
  }

  lemma OrderlyCons(events: seq<Event>, rest: seq<Event>, failed: bool)
    requires Orderly(rest) && !rest[0].StateLog?
    requires failed || |rest| == 1
    requires (exists p :: events == [Ask, Dial(p), StateLog(p, failed)]) || events == [DialDirect(failed)]
    ensures Orderly(events + rest) && !(events + rest)[0].StateLog?
  {
    var t, n := events + rest, |events|;
    assert forall k :: n <= k < |t| ==> t[k] == rest[k - n];
    assert forall k :: 0 <= k < n ==> t[k] == events[k];
    forall k | 0 <= k < |t| && t[k].StateLog? ensures k > 0 && t[k - 1] == Dial(t[k].target) {
      if k >= n {
        assert rest[k - n].StateLog?;
      }
    }
  }

  ghost predicate Good(c: Chain) {
    Orderly(c.trace) && !c.trace[0].StateLog?
  }

  lemma ConnectOrderly(cfg: Config, repeat: int, list: seq<Field>, tries: nat -> Try, i: nat, direct: Direct)
    ensures Good(Connect(cfg, repeat, list, tries, i, direct))
    decreases Left(cfg, repeat), Fallbacks(list), 1
  {
    match tries(i) {
      case Rejected =>
      case NoTarget =>
      case Tried(target, error, socketError, logFails) =>
        var failed := Failed(cfg, error, socketError);
        var events := [Ask, Dial(target), StateLog(target, error)];
        if logFails {
          OrderlyCons(events, [Close(Abandoned)], error);
        } else {
          AfterOrderly(cfg, repeat, list, failed, tries, i + 1, direct);
          OrderlyCons(events, After(cfg, repeat, list, failed, tries, i + 1, direct).trace, error);
        }
    }
  }

  lemma AfterOrderly(cfg: Config, repeat: int, list: seq<Field>, failed: bool, tries: nat -> Try, i: nat, direct: Direct)
    ensures Good(After(cfg, repeat, list, failed, tries, i, direct))
    ensures !failed ==> |After(cfg, repeat, list, failed, tries, i, direct).trace| == 1
    decreases Left(cfg, repeat), Fallbacks(list), 0
  {
    if failed && MayRepeat(cfg) {
      if repeat < cfg.maxRepeats {
        ConnectOrderly(cfg, repeat + 1, list, tries, i, direct);
      } else if HasFallback(list) && !direct.handleGone {
        EditedHasNoFallback(list, cfg.level, cfg.sender, cfg.via);
        DirectlyOrderly(cfg, repeat, Edited(list, cfg.level, cfg.sender, cfg.via), tries, i, direct);
      }
    }
  }

  lemma DirectlyOrderly(cfg: Config, repeat: int, list: seq<Field>, tries: nat -> Try, i: nat, direct: Direct)
    ensures Good(Directly(cfg, repeat, list, tries, i, direct))
    decreases Left(cfg, repeat), Fallbacks(list), 1
  {
    var failed := Failed(cfg, direct.error, direct.socketError);
    AfterOrderly(cfg, repeat, list, failed, tries, i, direct);
    OrderlyCons([DialDirect(failed)], After(cfg, repeat, list, failed, tries, i, direct).trace, failed);
  }

  // ---------------------------------------------------------------- how long a chain is

  ghost predicate Targets(dialled: seq<nat>, tries: nat -> Try, i: nat) {
    forall j :: i <= j < i + |dialled| ==> tries(j).Tried? && dialled[j - i] == tries(j).target
  }

  // `asks` proxy rounds and `directs` direct attempts took the counter from `repeat` to `c.repeat`.
  ghost predicate Counts(c: Chain, cfg: Config, repeat: int, list: seq<Field>, tries: nat -> Try, i: nat, first: nat) {
    && c.repeat == repeat + Asks(c.trace) - first
    && Asks(c.trace) <= Left(cfg, repeat) + first
    && Directs(c.trace) <= Fallbacks(list)
    && |Dialled(c.trace)| <= Asks(c.trace)
    && Targets(Dialled(c.trace), tries, i)
  }

  lemma TargetsCons(target: nat, rest: seq<nat>, tries: nat -> Try, i: nat)
    requires tries(i).Tried? && tries(i).target == target
    requires Targets(rest, tries, i + 1)
    ensures Targets([target] + rest, tries, i)
  {
    var d := [target] + rest;
    assert forall k :: 0 < k < |d| ==> d[k] == rest[k - 1];
  }

  lemma RoundCounts(target: nat, error: bool, rest: seq<Event>)
    ensures Asks([Ask, Dial(target), StateLog(target, error)] + rest) == 1 + Asks(rest)
    ensures Directs([Ask, Dial(target), StateLog(target, error)] + rest) == Directs(rest)
    ensures Dialled([Ask, Dial(target), StateLog(target, error)] + rest) == [target] + Dialled(rest)
  {
    assert [Ask, Dial(target), StateLog(target, error)] + rest
        == [Ask] + ([Dial(target)] + ([StateLog(target, error)] + rest));
    NestedCounts(Dial(target), StateLog(target, error), rest);
  }

  lemma NestedCounts(dial: Event, log: Event, rest: seq<Event>)
    requires dial.Dial? && log.StateLog?
    ensures Asks([Ask] + ([dial] + ([log] + rest))) == 1 + Asks(rest)
    ensures Directs([Ask] + ([dial] + ([log] + rest))) == Directs(rest)
    ensures Dialled([Ask] + ([dial] + ([log] + rest))) == [dial.target] + Dialled(rest)
  {
    CountsCons(log, rest);
    CountsCons(dial, [log] + rest);
    CountsCons(Ask, [dial] + ([log] + rest));
  }

  lemma AskAndClose(end: End)
    ensures Asks([Ask, Close(end)]) == 1 && Directs([Ask, Close(end)]) == 0 && Dialled([Ask, Close(end)]) == []
  {
    CountsCons(Ask, [Close(end)]);
    assert [Ask] + [Close(end)] == [Ask, Close(end)];
  }

  lemma ConnectCounts(cfg: Config, repeat: int, list: seq<Field>, tries: nat -> Try, i: nat, direct: Direct)
    ensures Counts(Connect(cfg, repeat, list, tries, i, direct), cfg, repeat, list, tries, i, 1)
    decreases Left(cfg, repeat), Fallbacks(list), 1
  {
    match tries(i) {
      case Rejected => AskAndClose(ErrorAnswer);
      case NoTarget => AskAndClose(Abandoned);
      case Tried(target, error, socketError, logFails) =>
        var failed := Failed(cfg, error, socketError);
        if logFails {
          RoundCounts(target, error, [Close(Abandoned)]);
          TargetsCons(target, [], tries, i);
        } else {
          AfterCounts(cfg, repeat, list, failed, tries, i + 1, direct);
          var rest := After(cfg, repeat, list, failed, tries, i + 1, direct).trace;
          RoundCounts(target, error, rest);
          TargetsCons(target, Dialled(rest), tries, i);
        }
    }
  }

  lemma AfterCounts(cfg: Config, repeat: int, list: seq<Field>, failed: bool, tries: nat -> Try, i: nat, direct: Direct)
    ensures Counts(After(cfg, repeat, list, failed, tries, i, direct), cfg, repeat, list, tries, i, 0)
    decreases Left(cfg, repeat), Fallbacks(list), 0
  {
    if failed && MayRepeat(cfg) {
      if repeat < cfg.maxRepeats {
        ConnectCounts(cfg, repeat + 1, list, tries, i, direct);
      } else if HasFallback(list) && !direct.handleGone {
        var edited := Edited(list, cfg.level, cfg.sender, cfg.via);
        EditedHasNoFallback(list, cfg.level, cfg.sender, cfg.via);
        DirectlyCounts(cfg, repeat, edited, tries, i, direct);
      }
    }
  }

  // A direct attempt adds itself to what its list allows.
  lemma DirectlyCounts(cfg: Config, repeat: int, list: seq<Field>, tries: nat -> Try, i: nat, direct: Direct)
    ensures var c := Directly(cfg, repeat, list, tries, i, direct);
      && c.repeat == repeat + Asks(c.trace)
      && Asks(c.trace) <= Left(cfg, repeat)
      && 1 <= Directs(c.trace) <= 1 + Fallbacks(list)
      && |Dialled(c.trace)| <= Asks(c.trace)
      && Targets(Dialled(c.trace), tries, i)
    decreases Left(cfg, repeat), Fallbacks(list), 1
  {
    var failed := Failed(cfg, direct.error, direct.socketError);
    AfterCounts(cfg, repeat, list, failed, tries, i, direct);
    var rest := After(cfg, repeat, list, failed, tries, i, direct).trace;
    CountsCons(DialDirect(failed), rest);
  }

  // Retry termination: from any counter and header list a chain asks for a proxy at most once more
  // than repeats are left, connects directly at most once and only with a fallback header, never
  // drives the counter over the limit, and is orderly: one log per dialled proxy, every attempt but
  // the last failed, one close at the end.
  lemma ChainTerminates(cfg: Config, repeat: int, list: seq<Field>, tries: nat -> Try, i: nat, direct: Direct)
    ensures var c := Connect(cfg, repeat, list, tries, i, direct);
      && Asks(c.trace) <= Left(cfg, repeat) + 1
      && Directs(c.trace) <= Fallbacks(list)
      && repeat <= c.repeat
      && (c.repeat == repeat || c.repeat <= cfg.maxRepeats)
      && Orderly(c.trace)
  {
    ConnectCounts(cfg, repeat, list, tries, i, direct);
    ConnectOrderly(cfg, repeat, list, tries, i, direct);
    AsksOnce(cfg, repeat, list, tries, i, direct);
  }

  lemma AsksOnce(cfg: Config, repeat: int, list: seq<Field>, tries: nat -> Try, i: nat, direct: Direct)
    ensures Asks(Connect(cfg, repeat, list, tries, i, direct).trace) >= 1
  {
    var t := Connect(cfg, repeat, list, tries, i, direct).trace;
    assert t[0].Ask?;
  }

  // ---------------------------------------------------------------- which attempts a chain makes

  // An answer after which the chain goes on, and one after which the request is served.
  predicate Again(cfg: Config, t: Try) {
    t.Tried? && !t.logFails && Failed(cfg, t.error, t.socketError)
  }

  predicate Worked(cfg: Config, t: Try) {
    t.Tried? && !t.logFails && !Failed(cfg, t.error, t.socketError)
  }

  predicate Finishes(t: seq<Event>) {
    t != [] && t[|t| - 1] == Close(Finished)
  }

  // `t` asks again after every failed attempt while repeats are left and never otherwise; it then
  // connects directly exactly when the header list and the client allow it; and it finishes exactly
  // when its last attempt worked.
  ghost predicate Exhausts(
      t: seq<Event>, cfg: Config, repeats: nat, list: seq<Field>, tries: nat -> Try, i: nat, direct: Direct)
  {
    && 1 <= Asks(t) <= repeats + 1
    && (forall j :: i <= j < i + Asks(t) - 1 ==> Again(cfg, tries(j)))
    && EndsWell(t, cfg, repeats + 1 - Asks(t), list, tries(i + Asks(t) - 1), direct)
  }

  ghost predicate EndsWell(t: seq<Event>, cfg: Config, repeats: nat, list: seq<Field>, last: Try, direct: Direct) {
    && (Again(cfg, last) ==> repeats == 0)
    && Directs(t) == (if Again(cfg, last) && MayRepeat(cfg) then DirectsAllowed(list, direct) else 0)
    && (Finishes(t) <==> Worked(cfg, last) || (Directs(t) == 1 && !Failed(cfg, direct.error, direct.socketError)))
  }

  function Repeats(cfg: Config, repeat: int): nat {
    if MayRepeat(cfg) then Left(cfg, repeat) else 0
  }

  // Nothing is given up early and nothing is tried in vain.
  lemma RetriesExact(cfg: Config, repeat: int, list: seq<Field>, tries: nat -> Try, i: nat, direct: Direct)
    ensures Exhausts(Connect(cfg, repeat, list, tries, i, direct).trace, cfg, Repeats(cfg, repeat), list, tries, i, direct)
    decreases Left(cfg, repeat)
  {
    var answer := tries(i);
    if Again(cfg, answer) && Repeats(cfg, repeat) > 0 {
      RetriesExact(cfg, repeat + 1, list, tries, i + 1, direct);
      AskedAgain(answer.target, Connect(cfg, repeat + 1, list, tries, i + 1, direct).trace,
                 cfg, Repeats(cfg, repeat), list, tries, i, direct);
    } else {
      AskedOnce(cfg, repeat, list, tries, i, direct);
    }
  }

  // A chain that asks once: the round, and what its answer leads to.
  lemma SingleRound(target: nat, error: bool, rest: seq<Event>)
    requires rest != [] && Asks(rest) == 0
    ensures Asks([Ask, Dial(target), StateLog(target, error)] + rest) == 1
    ensures Directs([Ask, Dial(target), StateLog(target, error)] + rest) == Directs(rest)
    ensures Finishes([Ask, Dial(target), StateLog(target, error)] + rest) == Finishes(rest)
  {
    RoundCounts(target, error, rest);
  }

  lemma AskedOnce(cfg: Config, repeat: int, list: seq<Field>, tries: nat -> Try, i: nat, direct: Direct)
    requires Again(cfg, tries(i)) ==> Repeats(cfg, repeat) == 0
    ensures var t := Connect(cfg, repeat, list, tries, i, direct).trace;
      Asks(t) == 1 && EndsWell(t, cfg, Repeats(cfg, repeat), list, tries(i), direct)
  {
    match tries(i) {
      case Rejected => AskAndClose(ErrorAnswer);
      case NoTarget => AskAndClose(Abandoned);
      case Tried(target, error, socketError, logFails) =>
        var failed := Failed(cfg, error, socketError);
        if logFails {
          CountsCons(Close(Abandoned), []);
          assert [Close(Abandoned)] + [] == [Close(Abandoned)];
          SingleRound(target, error, [Close(Abandoned)]);
        } else {
          LastAttempts(cfg, repeat, list, failed, tries, i + 1, direct);
          SingleRound(target, error, After(cfg, repeat, list, failed, tries, i + 1, direct).trace);
        }
    }
  }

  lemma AskedAgain(
      target: nat, rest: seq<Event>, cfg: Config, repeats: nat, list: seq<Field>, tries: nat -> Try, i: nat, direct: Direct)
    requires repeats > 0 && Again(cfg, tries(i))
    requires Exhausts(rest, cfg, repeats - 1, list, tries, i + 1, direct)
    ensures Exhausts([Ask, Dial(target), StateLog(target, true)] + rest, cfg, repeats, list, tries, i, direct)
  {
    RoundCounts(target, true, rest);
  }

  function DirectsAllowed(list: seq<Field>, direct: Direct): nat {
    if HasFallback(list) && !direct.handleGone then 1 else 0
  }

  lemma LastAttempts(cfg: Config, repeat: int, list: seq<Field>, failed: bool, tries: nat -> Try, i: nat, direct: Direct)
    requires failed && MayRepeat(cfg) ==> repeat >= cfg.maxRepeats
    ensures var t := After(cfg, repeat, list, failed, tries, i, direct).trace;
      && t != [] && Asks(t) == 0
      && Directs(t) == (if failed && MayRepeat(cfg) then DirectsAllowed(list, direct) else 0)
      && (Finishes(t) <==> !failed || (Directs(t) == 1 && !Failed(cfg, direct.error, direct.socketError)))
  {
    if failed && MayRepeat(cfg) && HasFallback(list) && !direct.handleGone {
      var f := Failed(cfg, direct.error, direct.socketError);
      var edited := Edited(list, cfg.level, cfg.sender, cfg.via);
      EditedHasNoFallback(list, cfg.level, cfg.sender, cfg.via);
      CountsCons(DialDirect(f), After(cfg, repeat, edited, f, tries, i, direct).trace);
    }
  }

  // For a request that goes through the entry points the fallback never happens: the header that
  // would allow it was stripped on the way in. Such a request makes no direct connection at all.
  lemma FallbackNeverHappens(cfg: Config, repeat: int, list: seq<Field>, tries: nat -> Try, direct: Direct)
    requires cfg.toProxy && cfg.hasTarget
    ensures Directs(Serve(cfg, repeat, list, tries, direct).trace) == 0
  {
    EditedHasNoFallback(list, cfg.level, cfg.sender, cfg.via);
    ConnectCounts(cfg, repeat, Edited(list, cfg.level, cfg.sender, cfg.via), tries, 0, direct);
  }

  // ---------------------------------------------------------------- many requests over one socket

  datatype Request = Request(cfg: Config, list: seq<Field>, tries: nat -> Try, direct: Direct)

  // The counter belongs to the client socket and is carried from request to request.
  function Session(repeat: int, requests: seq<Request>): (nat, int)
    decreases |requests|
  {
    if requests == [] then (0, repeat)
    else
      var r := requests[0];
      var c := Serve(r.cfg, repeat, r.list, r.tries, r.direct);
      var (asks, last) := Session(c.repeat, requests[1..]);
      (Asks(c.trace) + asks, last)
  }

  // All requests of one client socket together ask for a proxy at most once each plus the repeat
  // limit: later requests get only the repeats that earlier ones left.
  lemma {:induction false} SessionBudget(limit: int, repeat: int, requests: seq<Request>)
    requires forall k :: 0 <= k < |requests| ==> requests[k].cfg.maxRepeats == limit
    requires repeat <= limit
    ensures var (asks, last) := Session(repeat, requests);
      && asks <= |requests| + (last - repeat)
      && last <= limit
    decreases |requests|
  {
    if requests != [] {
      var r := requests[0];
      var edited := Edited(r.list, r.cfg.level, r.cfg.sender, r.cfg.via);
      ConnectCounts(r.cfg, repeat, edited, r.tries, 0, r.direct);
      AsksOnce(r.cfg, repeat, edited, r.tries, 0, r.direct);
      DirectlyCounts(r.cfg, repeat, edited, r.tries, 0, r.direct);
      SessionBudget(limit, Serve(r.cfg, repeat, r.list, r.tries, r.direct).repeat, requests[1..]);
    }
  }
}
