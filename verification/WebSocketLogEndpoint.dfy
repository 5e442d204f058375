/** The web socket callbacks: each takes one step of SessionProtocol for its own session. */
module WebSocketEndpoint {
  import opened JavaText
  import opened LogModel
  import opened LogBroadcasting
  import opened SessionProtocol

  class WebSocketLogEndpoint {
    const logBroadcastingService: LogBroadcastingService
    var session: Option<Session>
    var closureLatch: nat

    constructor (logBroadcastingService: LogBroadcastingService)
      ensures this.logBroadcastingService == logBroadcastingService && session == None && closureLatch == 1
    {
      this.logBroadcastingService := logBroadcastingService;
      session := None;
      closureLatch := 1;
    }

    method OnWebSocketOpen(session: Session)
      requires logBroadcastingService.Valid() && this !in logBroadcastingService.home
      modifies `session, logBroadcastingService
      ensures logBroadcastingService.Valid() && this.session == Some(session)
      ensures session in logBroadcastingService.subscriptionStorage
      ensures logBroadcastingService.subscriptionStorage[session] == Subscription([], [], INITIAL)
      ensures logBroadcastingService.View() == Apply(old(logBroadcastingService.View()), Opened(session))
    {
      this.session := Some(session);
      logBroadcastingService.SaveBroadcastingSession(session, INITIAL_SUBSCRIPTION);
    }

    method OnWebSocketClose()
      requires logBroadcastingService.Valid() && this !in logBroadcastingService.home && session.Some?
      modifies `closureLatch, logBroadcastingService
      ensures logBroadcastingService.Valid()
      ensures session.value !in logBroadcastingService.subscriptionStorage
      ensures closureLatch == if old(closureLatch) > 0 then old(closureLatch) - 1 else 0
      ensures logBroadcastingService.View() == Apply(old(logBroadcastingService.View()), Removed(session.value))
    {
      logBroadcastingService.RemoveBroadcastingSession(session.value);
      closureLatch := if closureLatch > 0 then closureLatch - 1 else 0;
    }

    method OnWebSocketText(request: Request, answered: bool, errorSent: bool) returns (ghost found: seq<LogData>)
      requires logBroadcastingService.Valid() && session.Some?
      modifies logBroadcastingService
      ensures logBroadcastingService.Valid()
      ensures Possible(old(logBroadcastingService.View()), Asked(session.value, request, found, answered, errorSent))
      ensures logBroadcastingService.View() ==
                Apply(old(logBroadcastingService.View()), Asked(session.value, request, found, answered, errorSent))
    {
      found := logBroadcastingService.HandleLogBroadcastingRequest(session.value, request, answered, errorSent);
    }

    method OnWebSocketError()
      requires logBroadcastingService.Valid() && session.Some?
      modifies logBroadcastingService
      ensures logBroadcastingService.Valid()
      ensures session.value !in logBroadcastingService.subscriptionStorage
      ensures logBroadcastingService.View() == Apply(old(logBroadcastingService.View()), Removed(session.value))
    {
      logBroadcastingService.RemoveBroadcastingSession(session.value);
    }
  }
}
