// What the retry chain does, in the terms of the answers it gets: the handle's error, the socket's
// error, the request's kind and the server's options.
module RetryLaws {
  import opened Text
  import opened Headers
  import opened ProxyServer

  // What the state log was told of every dialled proxy, in order: whether its handle had an error.
  function Logged(t: seq<Event>): seq<(nat, bool)> {
    if t == [] then []
    else (if t[0].StateLog? then [(t[0].target, t[0].error)] else []) + Logged(t[1..])
  }

  lemma LoggedCons(e: Event, rest: seq<Event>)
    ensures Logged([e] + rest) == if e.StateLog? then [(e.target, e.error)] + Logged(rest) else Logged(rest)
  {
    assert ([e] + rest)[1..] == rest;
    assert [] + Logged(rest) == Logged(rest);
  }

  // After the answer the chain asks for another proxy: one was tried, its use was stored, it failed,
  // for a CONNECT request at its socket, and there is a repeat left to a request that may go over any
  // proxy.
  ghost predicate AsksNext(cfg: Config, repeat: int, answer: Try) {
    && answer.Tried? && !answer.logFails
    && (if cfg.ssl then answer.error && answer.socketError else answer.error)
    && repeat < cfg.maxRepeats && cfg.toProxy && !cfg.selected
  }

  // How a chain ends after its last answer.
  function Ending(cfg: Config, list: seq<Field>, answer: Try, direct: Direct): End {
    match answer
    case Rejected => ErrorAnswer
    case NoTarget => Abandoned
    case Tried(_, error, socketError, logFails) =>
      if logFails then Abandoned
      else if !error || (cfg.ssl && !socketError) then Finished
      else if !cfg.toProxy || cfg.selected || !HasFallback(list) then ErrorAnswer
      else if direct.handleGone then (if cfg.ssl then Abandoned else ErrorAnswer)
      else if !direct.error || (cfg.ssl && !direct.socketError) then Finished
      else ErrorAnswer
  }

  ghost predicate Obeys(
      t: seq<Event>, cfg: Config, repeat: int, list: seq<Field>, tries: nat -> Try, i: nat, direct: Direct)
  {
    t != [] && Agrees(Asks(t), Logged(t), t[|t| - 1], cfg, repeat, list, tries, i, direct)
  }

  // The number of asks, the state logs and the last event of a chain agree with the answers it got.
  ghost predicate Agrees(
      asks: nat, logged: seq<(nat, bool)>, close: Event,
      cfg: Config, repeat: int, list: seq<Field>, tries: nat -> Try, i: nat, direct: Direct)
  {
    && asks >= 1
    && AsksWhile(asks, cfg, repeat, tries, i)
    && |logged| == asks - (if tries(i + asks - 1).Tried? then 0 else 1)
    && LogsAre(logged, tries, i)
    && close == Close(Ending(cfg, list, tries(i + asks - 1), direct))
  }

  // Of the answers from the i-th on, exactly the first n - 1 made the chain ask again.
  ghost predicate AsksWhile(n: nat, cfg: Config, repeat: int, tries: nat -> Try, i: nat) {
    forall k :: i <= k < i + n ==> (k + 1 < i + n <==> AsksNext(cfg, repeat + (k - i), tries(k)))
  }

  ghost predicate LogsAre(logged: seq<(nat, bool)>, tries: nat -> Try, i: nat) {
    forall k :: i <= k < i + |logged| ==> tries(k).Tried? && logged[k - i] == (tries(k).target, tries(k).error)
  }

  lemma AsksOnceOnly(cfg: Config, repeat: int, tries: nat -> Try, i: nat)
    requires !AsksNext(cfg, repeat, tries(i))
    ensures AsksWhile(1, cfg, repeat, tries, i)
  {
    forall k | i <= k < i + 1 ensures !AsksNext(cfg, repeat + (k - i), tries(k)) {
      assert k == i;
    }
  }

  // ---------------------------------------------------------------- one round

  function Round(target: nat, error: bool): seq<Event> {
    [Ask, Dial(target), StateLog(target, error)]
  }

  lemma RoundLogs(target: nat, error: bool, rest: seq<Event>)
    ensures Asks(Round(target, error) + rest) == 1 + Asks(rest)
    ensures Logged(Round(target, error) + rest) == [(target, error)] + Logged(rest)
  {
    RoundCounts(target, error, rest);
    var log, dial := StateLog(target, error), Dial(target);
    LoggedCons(log, rest);
    LoggedCons(dial, [log] + rest);
    LoggedCons(Ask, [dial] + ([log] + rest));
    assert Round(target, error) + rest == [Ask] + ([dial] + ([log] + rest));
  }

  lemma NextRoundObeys(
      rest: seq<Event>, cfg: Config, repeat: int, list: seq<Field>, tries: nat -> Try, i: nat, direct: Direct)
    requires AsksNext(cfg, repeat, tries(i))
    requires Obeys(rest, cfg, repeat + 1, list, tries, i + 1, direct)
    ensures Obeys(Round(tries(i).target, tries(i).error) + rest, cfg, repeat, list, tries, i, direct)
  {
    RoundLogs(tries(i).target, tries(i).error, rest);
  }

  lemma OneAnswerAgrees(
      logged: seq<(nat, bool)>, close: Event,
      cfg: Config, repeat: int, list: seq<Field>, tries: nat -> Try, i: nat, direct: Direct)
    requires !AsksNext(cfg, repeat, tries(i))
    requires logged == if tries(i).Tried? then [(tries(i).target, tries(i).error)] else []
    requires close == Close(Ending(cfg, list, tries(i), direct))
    ensures Agrees(1, logged, close, cfg, repeat, list, tries, i, direct)
  {
    AsksOnceOnly(cfg, repeat, tries, i);
  }

  lemma OneAnswerObeys(
      t: seq<Event>, cfg: Config, repeat: int, list: seq<Field>, tries: nat -> Try, i: nat, direct: Direct)
    requires Asks(t) == 1 && !AsksNext(cfg, repeat, tries(i))
    requires Logged(t) == if tries(i).Tried? then [(tries(i).target, tries(i).error)] else []
    requires t != [] && t[|t| - 1] == Close(Ending(cfg, list, tries(i), direct))
    ensures Obeys(t, cfg, repeat, list, tries, i, direct)
  {
    OneAnswerAgrees(Logged(t), t[|t| - 1], cfg, repeat, list, tries, i, direct);
  }

  lemma LastRoundObeys(
      rest: seq<Event>, cfg: Config, repeat: int, list: seq<Field>, tries: nat -> Try, i: nat, direct: Direct)
    requires tries(i).Tried? && !AsksNext(cfg, repeat, tries(i))
    requires Asks(rest) == 0 && Logged(rest) == [] && rest != []
    requires rest[|rest| - 1] == Close(Ending(cfg, list, tries(i), direct))
    ensures Obeys(Round(tries(i).target, tries(i).error) + rest, cfg, repeat, list, tries, i, direct)
  {
    var t := Round(tries(i).target, tries(i).error) + rest;
    RoundLogs(tries(i).target, tries(i).error, rest);
    assert t[|t| - 1] == rest[|rest| - 1];
    OneAnswerObeys(t, cfg, repeat, list, tries, i, direct);
  }

  lemma CloseLogsNothing(end: End)
    ensures Asks([Close(end)]) == 0 && Logged([Close(end)]) == []
  {
    CountsCons(Close(end), []);
    LoggedCons(Close(end), []);
    assert [Close(end)] + [] == [Close(end)];
  }

  lemma DirectLogsNothing(failed: bool, end: End)
    ensures Asks([DialDirect(failed), Close(end)]) == 0 && Logged([DialDirect(failed), Close(end)]) == []
  {
    CloseLogsNothing(end);
    CountsCons(DialDirect(failed), [Close(end)]);
    LoggedCons(DialDirect(failed), [Close(end)]);
    assert [DialDirect(failed)] + [Close(end)] == [DialDirect(failed), Close(end)];
  }

  // Nothing is tried after a direct attempt that no fallback header allows to repeat.
  lemma AfterDirect(
      cfg: Config, repeat: int, list: seq<Field>, failed: bool, tries: nat -> Try, i: nat, direct: Direct)
    requires !HasFallback(list) && (failed && MayRepeat(cfg) ==> repeat >= cfg.maxRepeats)
    ensures After(cfg, repeat, list, failed, tries, i, direct).trace == [Close(if failed then ErrorAnswer else Finished)]
  {
  }

  lemma DirectlyOnce(
      cfg: Config, repeat: int, list: seq<Field>, tries: nat -> Try, i: nat, direct: Direct)
    requires !HasFallback(list) && (MayRepeat(cfg) ==> repeat >= cfg.maxRepeats)
    ensures var f := if cfg.ssl then direct.error && direct.socketError else direct.error;
      Directly(cfg, repeat, list, tries, i, direct).trace
        == [DialDirect(f), Close(if f then ErrorAnswer else Finished)]
  {
    AfterDirect(cfg, repeat, list, Failed(cfg, direct.error, direct.socketError), tries, i, direct);
  }

  // What follows the last tried proxy: the close, or a direct attempt and the close.
  lemma LastShape(
      cfg: Config, repeat: int, list: seq<Field>, tries: nat -> Try, i: nat, direct: Direct)
    requires tries(i).Tried? && !tries(i).logFails && !AsksNext(cfg, repeat, tries(i))
    ensures var failed := Failed(cfg, tries(i).error, tries(i).socketError);
      var f := if cfg.ssl then direct.error && direct.socketError else direct.error;
      var end := Close(Ending(cfg, list, tries(i), direct));
      After(cfg, repeat, list, failed, tries, i + 1, direct).trace ==
        if failed && MayRepeat(cfg) && HasFallback(list) && !direct.handleGone then [DialDirect(f), end] else [end]
  {
    var failed := Failed(cfg, tries(i).error, tries(i).socketError);
    if failed && MayRepeat(cfg) && HasFallback(list) && !direct.handleGone {
      EditedHasNoFallback(list, cfg.level, cfg.sender, cfg.via);
      DirectlyOnce(cfg, repeat, Edited(list, cfg.level, cfg.sender, cfg.via), tries, i + 1, direct);
    }
  }

  lemma AfterLast(
      cfg: Config, repeat: int, list: seq<Field>, tries: nat -> Try, i: nat, direct: Direct)
    requires tries(i).Tried? && !tries(i).logFails && !AsksNext(cfg, repeat, tries(i))
    ensures var failed := Failed(cfg, tries(i).error, tries(i).socketError);
      var rest := After(cfg, repeat, list, failed, tries, i + 1, direct).trace;
      && Asks(rest) == 0 && Logged(rest) == [] && rest != []
      && rest[|rest| - 1] == Close(Ending(cfg, list, tries(i), direct))
  {
    var end := Ending(cfg, list, tries(i), direct);
    LastShape(cfg, repeat, list, tries, i, direct);
    DirectLogsNothing(if cfg.ssl then direct.error && direct.socketError else direct.error, end);
    CloseLogsNothing(end);
  }

  // Retry law: a plain request is repeated after an attempt with any error, a CONNECT request after one
  // whose socket failed, in both cases exactly while repeats are left and no proxy is selected; each
  // tried proxy is logged with its handle's error; and the chain's end is that of its last answer.
  lemma RetryLaw(cfg: Config, repeat: int, list: seq<Field>, tries: nat -> Try, i: nat, direct: Direct)
    ensures Obeys(Connect(cfg, repeat, list, tries, i, direct).trace, cfg, repeat, list, tries, i, direct)
    decreases Left(cfg, repeat)
  {
    var answer := tries(i);
    if AsksNext(cfg, repeat, answer) {
      RetryLaw(cfg, repeat + 1, list, tries, i + 1, direct);
      NextRoundObeys(Connect(cfg, repeat + 1, list, tries, i + 1, direct).trace, cfg, repeat, list, tries, i, direct);
    } else if answer.Tried? {
      TriedLast(cfg, repeat, list, tries, i, direct);
    } else {
      NoProxy(cfg, repeat, list, tries, i, direct);
    }
  }

  lemma TriedLast(cfg: Config, repeat: int, list: seq<Field>, tries: nat -> Try, i: nat, direct: Direct)
    requires tries(i).Tried? && !AsksNext(cfg, repeat, tries(i))
    ensures Obeys(Connect(cfg, repeat, list, tries, i, direct).trace, cfg, repeat, list, tries, i, direct)
  {
    var answer := tries(i);
    if answer.logFails {
      CloseLogsNothing(Abandoned);
      LastRoundObeys([Close(Abandoned)], cfg, repeat, list, tries, i, direct);
    } else {
      AfterLast(cfg, repeat, list, tries, i, direct);
      var failed := Failed(cfg, answer.error, answer.socketError);
      LastRoundObeys(After(cfg, repeat, list, failed, tries, i + 1, direct).trace, cfg, repeat, list, tries, i, direct);
    }
  }

  lemma NoProxy(cfg: Config, repeat: int, list: seq<Field>, tries: nat -> Try, i: nat, direct: Direct)
    requires !tries(i).Tried?
    ensures Obeys(Connect(cfg, repeat, list, tries, i, direct).trace, cfg, repeat, list, tries, i, direct)
  {
    var end := if tries(i).Rejected? then ErrorAnswer else Abandoned;
    AskAndClose(end);
    CloseLogsNothing(end);
    LoggedCons(Ask, [Close(end)]);
    assert [Ask] + [Close(end)] == [Ask, Close(end)];
    OneAnswerObeys([Ask, Close(end)], cfg, repeat, list, tries, i, direct);
  }

  // ---------------------------------------------------------------- direct connections

  // A request that goes over no proxy is connected directly, once: it fails by any error of the handle,
  // a CONNECT request only by one of the socket, and a failure is answered with an error.
  lemma DirectLaw(cfg: Config, repeat: int, list: seq<Field>, tries: nat -> Try, direct: Direct)
    requires !cfg.toProxy
    ensures Serve(cfg, repeat, list, tries, direct).trace ==
      if direct.error && (direct.socketError || !cfg.ssl) then [DialDirect(true), Close(ErrorAnswer)]
      else [DialDirect(false), Close(Finished)]
  {
    EditedHasNoFallback(list, cfg.level, cfg.sender, cfg.via);
    DirectlyOnce(cfg, repeat, Edited(list, cfg.level, cfg.sender, cfg.via), tries, 0, direct);
  }

  // Without a target a request is connected directly first, also when it may go over proxies later.
  lemma NoTargetLaw(cfg: Config, repeat: int, list: seq<Field>, tries: nat -> Try, direct: Direct)
    requires !cfg.toProxy || !cfg.hasTarget
    ensures var t := Serve(cfg, repeat, list, tries, direct).trace;
      && t != []
      && t[0] == DialDirect(direct.error && (direct.socketError || !cfg.ssl))
  {
  }

  // A request that goes over proxies asks for one before it does anything else, and only the headers
  // it was edited to count.
  lemma ProxiedLaw(cfg: Config, repeat: int, list: seq<Field>, tries: nat -> Try, direct: Direct)
    requires cfg.toProxy && cfg.hasTarget
    ensures Obeys(Serve(cfg, repeat, list, tries, direct).trace, cfg, repeat,
                  Edited(list, cfg.level, cfg.sender, cfg.via), tries, 0, direct)
  {
    RetryLaw(cfg, repeat, Edited(list, cfg.level, cfg.sender, cfg.via), tries, 0, direct);
  }

  // Every direct attempt of a chain is flagged with its own outcome.
  lemma DirectFlags(cfg: Config, repeat: int, list: seq<Field>, tries: nat -> Try, i: nat, direct: Direct, e: Event)
    requires e.DialDirect? && e in Connect(cfg, repeat, list, tries, i, direct).trace
    ensures e.failed <==> if cfg.ssl then direct.error && direct.socketError else direct.error
    decreases Left(cfg, repeat)
  {
    var answer := tries(i);
    if AsksNext(cfg, repeat, answer) {
      DirectFlags(cfg, repeat + 1, list, tries, i + 1, direct, e);
    } else if answer.Tried? && !answer.logFails {
      LastShape(cfg, repeat, list, tries, i, direct);
    }
  }

  // ---------------------------------------------------------------- the header list

  lemma LevelName()
    ensures Lower(SELECT_LEVEL) == "proxy-select-level"
  {
  }

  lemma SpeedLimitName()
    ensures Lower(SELECT_SPEED_LIMIT) == "proxy-select-speed-limit"
  {
  }

  lemma SslName()
    ensures Lower(SELECT_SSL) == "proxy-select-ssl"
  {
  }

  lemma FallbackName()
    ensures Lower(SELECT_FALLBACK) == "proxy-select-fallback"
  {
  }

  lemma CountryName()
    ensures Lower(SELECT_COUNTRY) == "proxy-select-country"
  {
  }

  lemma ProxyName()
    ensures Lower(SELECT_PROXY) == "proxy-select-proxy"
  {
  }

  lemma AddedNames()
    ensures Lower(VIA) == "via" && Lower(FORWARDED_FOR) == "x-forwarded-for"
  {
  }

  // The fallback is wanted exactly when the first header of that name has a value.
  lemma {:induction false} FallbackLaw(list: seq<Field>)
    ensures HasFallback(list) <==>
      exists i :: && 0 <= i < |list| && list[i].key == "proxy-select-fallback" && list[i].value != ""
                  && forall j :: 0 <= j < i ==> list[j].key != "proxy-select-fallback"
  {
    FallbackName();
    if list != [] && list[0].key != "proxy-select-fallback" {
      FallbackLaw(list[1..]);
      assert forall i :: 0 < i < |list| ==> list[1..][i - 1] == list[i];
      if HasFallback(list) {
        var i :| 0 <= i < |list[1..]| && list[1..][i].key == "proxy-select-fallback" && list[1..][i].value != ""
                 && forall j :: 0 <= j < i ==> list[1..][j].key != "proxy-select-fallback";
        assert list[i + 1].key == "proxy-select-fallback";
      }
    }
  }

  // What the edit of a request leaves: all fields but the selecting ones and those the level sets anew,
  // and at level 2 the Via text, at level 3 also the sender.
  lemma EditLaw(list: seq<Field>, level: int, sender: string, via: string, f: Field)
    ensures f in Edited(list, level, sender, via) <==>
      || (&& f in list
          && f.key !in {"proxy-select-level", "proxy-select-speed-limit", "proxy-select-ssl",
                        "proxy-select-fallback", "proxy-select-country", "proxy-select-proxy"}
          && (level in {2, 3} ==> f.key != "via") && (level == 3 ==> f.key != "x-forwarded-for"))
      || (level in {2, 3} && f == Field("via", "Via", via))
      || (level == 3 && f == Field("x-forwarded-for", "X-Forwarded-For", sender))
  {
    AddedNames();
    DifferentNames();
    StrippedLaw(list, f);
  }

  lemma DifferentNames()
    ensures "via" != "x-forwarded-for"
  {
    assert |"via"| == 3 && |"x-forwarded-for"| == 15;
  }

  lemma StrippedLaw(list: seq<Field>, f: Field)
    ensures f in Stripped(list) <==>
      && f in list
      && f.key !in {"proxy-select-level", "proxy-select-speed-limit", "proxy-select-ssl",
                    "proxy-select-fallback", "proxy-select-country", "proxy-select-proxy"}
  {
    LevelName();
    SpeedLimitName();
    SslName();
    FallbackName();
    CountryName();
    ProxyName();
  }
}
