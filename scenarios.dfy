/**
 The concrete scenarios of the processor's unit tests, stated over the
 model: stock services answering `id:INPUT` after a jitter of at most
 30 ms, services that fail at once, and services that never complete.
 */
module Scenarios {
  import opened Strings
  import opened Microservice
  import opened AsyncProcessor

  const Routes: seq<string> := ["nyc-lax", "nyc-sfo", "nyc-sea"]

  lemma UpperRoutes()
    ensures Upper("nyc-lax") == "NYC-LAX"
    ensures Upper("nyc-sfo") == "NYC-SFO"
    ensures Upper("nyc-sea") == "NYC-SEA"
  {
  }

  /** Three parts joined by single spaces. */
  lemma JoinThree(a: string, b: string, c: string)
    ensures Join([a, b, c], " ") == a + " " + b + " " + c
  {
    JoinAppend(b, [c], " ");
    JoinAppend(a, [b, c], " ");
    assert [a] + [b, c] == [a, b, c] && [b] + [c] == [b, c];
  }

  lemma AirlineLine()
    ensures Join(["AirAlpha:NYC-LAX", "JetBravo:NYC-SFO", "SkyCharlie:NYC-SEA"], " ")
      == "AirAlpha:NYC-LAX JetBravo:NYC-SFO SkyCharlie:NYC-SEA"
  {
    JoinThree("AirAlpha:NYC-LAX", "JetBravo:NYC-SFO", "SkyCharlie:NYC-SEA");
    assert "AirAlpha:NYC-LAX" + " " + "JetBravo:NYC-SFO" == "AirAlpha:NYC-LAX JetBravo:NYC-SFO";
  }

  lemma ServiceLine()
    ensures Join(["Service-A:MSG-A", "SERVICE_UNAVAILABLE", "Service-C:MSG-C"], " ")
      == "Service-A:MSG-A SERVICE_UNAVAILABLE Service-C:MSG-C"
  {
    JoinThree("Service-A:MSG-A", "SERVICE_UNAVAILABLE", "Service-C:MSG-C");
    assert "Service-A:MSG-A" + " " + "SERVICE_UNAVAILABLE" == "Service-A:MSG-A SERVICE_UNAVAILABLE";
  }

  lemma QuoteLine()
    ensures Join(["QUOTE_UNAVAILABLE", "JetBravo:NYC-SFO"], " ") == "QUOTE_UNAVAILABLE JetBravo:NYC-SFO"
  {
    assert ["QUOTE_UNAVAILABLE", "JetBravo:NYC-SFO"][1..] == ["JetBravo:NYC-SFO"];
  }

  /** All three airline services answer: one string, in input order. */
  lemma AirlineFailFastAllSucceed(j1: nat, j2: nat, j3: nat)
    requires j1 <= 30 && j2 <= 30 && j3 <= 30
    ensures ProcessAsyncFailFast([Stub("AirAlpha", j1), Stub("JetBravo", j2), Stub("SkyCharlie", j3)], Routes)
      == Success("AirAlpha:NYC-LAX JetBravo:NYC-SFO SkyCharlie:NYC-SEA")
  {
    UpperRoutes();
    var os := Settle(Dispatch([Stub("AirAlpha", j1), Stub("JetBravo", j2), Stub("SkyCharlie", j3)], Routes));
    assert os[0] == Ok("AirAlpha:NYC-LAX");
    assert os[1] == Ok("JetBravo:NYC-SFO");
    assert os[2] == Ok("SkyCharlie:NYC-SEA");
    assert os == [Ok("AirAlpha:NYC-LAX"), Ok("JetBravo:NYC-SFO"), Ok("SkyCharlie:NYC-SEA")];
    OkValuesAllOk(os);
    var vs := ["AirAlpha:NYC-LAX", "JetBravo:NYC-SFO", "SkyCharlie:NYC-SEA"];
    assert OkValues(os) == vs;
    AirlineLine();
  }

  /** One airline service fails: the request fails with its error. */
  lemma AirlineFailFastOneFails(j2: nat, j3: nat)
    requires j2 <= 30 && j3 <= 30
    ensures ProcessAsyncFailFast([FailingService("AirAlpha API down"), Stub("JetBravo", j2), Stub("SkyCharlie", j3)], Routes)
      == Failure(CallFailure("AirAlpha API down"))
  {
    var os := Settle(Dispatch([FailingService("AirAlpha API down"), Stub("JetBravo", j2), Stub("SkyCharlie", j3)], Routes));
    assert os[0] == Failed("AirAlpha API down");
  }

  /** A hanging service times out, and the request fails with a timeout. */
  lemma AirlineFailFastHanging(j2: nat)
    requires j2 <= 30
    ensures ProcessAsyncFailFast([HangingService(), Stub("JetBravo", j2)], Routes[..2]) == Failure(CallTimeout)
  {
    var os := Settle(Dispatch([HangingService(), Stub("JetBravo", j2)], Routes[..2]));
    assert os[0] == TimedOut;
  }

  /** One service and two messages: rejected before any call. */
  lemma AirlineSizeMismatch(j1: nat)
    ensures ProcessAsyncFailFast([Stub("AirAlpha", j1)], Routes[..2]) == Failure(InvalidArgument(SizeMismatch))
  {
  }

  /** Fail-partial drops the failed first service and keeps the others in order. */
  lemma AirlineFailPartialOneFails(j2: nat, j3: nat)
    requires j2 <= 30 && j3 <= 30
    ensures ProcessAsyncFailPartial([FailingService("AirAlpha timeout"), Stub("JetBravo", j2), Stub("SkyCharlie", j3)], Routes)
      == Success(["JetBravo:NYC-SFO", "SkyCharlie:NYC-SEA"])
  {
    UpperRoutes();
    var os := Settle(Dispatch([FailingService("AirAlpha timeout"), Stub("JetBravo", j2), Stub("SkyCharlie", j3)], Routes));
    assert os[0] == Failed("AirAlpha timeout");
    assert os[1] == Ok("JetBravo:NYC-SFO");
    assert os[2] == Ok("SkyCharlie:NYC-SEA");
    assert os == [Failed("AirAlpha timeout"), Ok("JetBravo:NYC-SFO"), Ok("SkyCharlie:NYC-SEA")];
    assert os[..2] == [Failed("AirAlpha timeout"), Ok("JetBravo:NYC-SFO")];
    assert os[..2][..1] == [Failed("AirAlpha timeout")];
    assert os[..2][..1][..0] == [];
    assert OkValues(os[..2][..1]) == [];
    assert OkValues(os[..2]) == ["JetBravo:NYC-SFO"];
    assert OkValues(os) == ["JetBravo:NYC-SFO", "SkyCharlie:NYC-SEA"];
  }

  /** Fail-partial drops a hanging service after its timeout. */
  lemma AirlineFailPartialHanging(j2: nat)
    requires j2 <= 30
    ensures ProcessAsyncFailPartial([HangingService(), Stub("JetBravo", j2)], Routes[..2]) == Success(["JetBravo:NYC-SFO"])
  {
    UpperRoutes();
    var os := Settle(Dispatch([HangingService(), Stub("JetBravo", j2)], Routes[..2]));
    assert os[0] == TimedOut;
    assert os[1] == Ok("JetBravo:NYC-SFO");
    assert os == [TimedOut, Ok("JetBravo:NYC-SFO")];
    assert os[..1] == [TimedOut];
    assert os[..1][..0] == [];
    assert OkValues(os[..1]) == [];
    assert OkValues(os) == ["JetBravo:NYC-SFO"];
  }

  /** Fail-soft puts the fallback where the middle service failed. */
  lemma FailSoftMiddleFails(j1: nat, j3: nat)
    requires j1 <= 30 && j3 <= 30
    ensures ProcessAsyncFailSoft([Stub("Service-A", j1), FailingService("Service-2 error"), Stub("Service-C", j3)],
                                 ["msg-a", "msg-b", "msg-c"], "SERVICE_UNAVAILABLE")
      == Success("Service-A:MSG-A SERVICE_UNAVAILABLE Service-C:MSG-C")
  {
    assert Upper("msg-a") == "MSG-A" && Upper("msg-c") == "MSG-C";
    var os := Settle(Dispatch([Stub("Service-A", j1), FailingService("Service-2 error"), Stub("Service-C", j3)],
                              ["msg-a", "msg-b", "msg-c"]));
    assert os[0] == Ok("Service-A:MSG-A");
    assert os[1] == Failed("Service-2 error");
    assert os[2] == Ok("Service-C:MSG-C");
    assert os == [Ok("Service-A:MSG-A"), Failed("Service-2 error"), Ok("Service-C:MSG-C")];
    var vs := ["Service-A:MSG-A", "SERVICE_UNAVAILABLE", "Service-C:MSG-C"];
    assert Substitute(os, "SERVICE_UNAVAILABLE") == vs;
    ServiceLine();
  }

  /** Fail-soft with a hanging first service: the fallback, then the answer. */
  lemma AirlineFailSoftHanging(j2: nat)
    requires j2 <= 30
    ensures ProcessAsyncFailSoft([HangingService(), Stub("JetBravo", j2)], Routes[..2], "QUOTE_UNAVAILABLE")
      == Success("QUOTE_UNAVAILABLE JetBravo:NYC-SFO")
  {
    UpperRoutes();
    var os := Settle(Dispatch([HangingService(), Stub("JetBravo", j2)], Routes[..2]));
    assert os[0] == TimedOut;
    assert os[1] == Ok("JetBravo:NYC-SFO");
    assert os == [TimedOut, Ok("JetBravo:NYC-SFO")];
    var vs := ["QUOTE_UNAVAILABLE", "JetBravo:NYC-SFO"];
    assert Substitute(os, "QUOTE_UNAVAILABLE") == vs;
    QuoteLine();
  }

  /** The three airline services, all asked for the same route. */
  lemma AirlineBroadcast(j1: nat, j2: nat, j3: nat)
    requires j1 <= 30 && j2 <= 30 && j3 <= 30
    ensures OkValues(Settle(Broadcast([Stub("AirAlpha", j1), Stub("JetBravo", j2), Stub("SkyCharlie", j3)], "nyc-lax")))
      == ["AirAlpha:NYC-LAX", "JetBravo:NYC-LAX", "SkyCharlie:NYC-LAX"]
  {
    UpperRoutes();
    var os := Settle(Broadcast([Stub("AirAlpha", j1), Stub("JetBravo", j2), Stub("SkyCharlie", j3)], "nyc-lax"));
    assert os[0] == Ok("AirAlpha:NYC-LAX");
    assert os[1] == Ok("JetBravo:NYC-LAX");
    assert os[2] == Ok("SkyCharlie:NYC-LAX");
    OkValuesAllOk(os);
  }

  /** Completion order: whichever order the three airline services finish
      in, the list holds each answer exactly once. */
  method AirlineCompletionOrder(j1: nat, j2: nat, j3: nat, order: seq<nat>) returns (completed: seq<string>)
    requires IsPermutation(order, 3)
    requires j1 <= 30 && j2 <= 30 && j3 <= 30
    ensures multiset(completed) == multiset{"AirAlpha:NYC-LAX", "JetBravo:NYC-LAX", "SkyCharlie:NYC-LAX"}
  {
    completed := ProcessAsyncCompletionOrder([Stub("AirAlpha", j1), Stub("JetBravo", j2), Stub("SkyCharlie", j3)], "nyc-lax", order);
    AirlineBroadcast(j1, j2, j3);
  }
}
