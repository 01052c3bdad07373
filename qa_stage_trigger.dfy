/** The scheduled approval handler: it reads the pipeline's state, finds the named stage and,
    in it, the named action, takes the approval token of that action's latest execution and
    approves it with one `putApprovalResult` call. Every failure is thrown to the caller. */
module QaStageTrigger {
  import opened Wrappers
  import opened ArrayFind
  import opened CodePipeline

  /** The invocation payload. `approvalToken` is declared but not read by the handler. */
  datatype LambdaEvent = LambdaEvent(
    pipelineName: string,
    approvalToken: string,
    stageName: string,
    actionName: string)

  /** What the handler throws: one of its own three errors, or a service error passed on. */
  datatype Error =
    | NoStageStates
    | StageNotFound(stageName: string)
    | ActionOrTokenNotFound(actionName: string)
    | Remote(cause: ServiceError)

  const SuccessMessage: string := "Stage approval submitted successfully."
  const ApprovalSummary: string := "Stage approved by Lambda function"

  /** The text of the thrown error: a service error keeps its own text, and the handler's
      own texts name the stage or action that was looked up. */
  function Message(e: Error): (r: string)
    ensures e.Remote? ==> r == e.cause.message
    ensures e.StageNotFound? ==> |r| > 7 + |e.stageName| && r[..7] == "Stage '" && r[7..7 + |e.stageName|] == e.stageName
    ensures e.ActionOrTokenNotFound? ==> |r| > 8 + |e.actionName| && r[..8] == "Action '" && r[8..8 + |e.actionName|] == e.actionName
  {
    match e
    case NoStageStates => "No stage states found for the pipeline."
    case StageNotFound(name) => "Stage '" + name + "' not found or no action states available."
    case ActionOrTokenNotFound(name) => "Action '" + name + "' not found or no approval token available."
    case Remote(cause) => cause.message
  }

  /** The handler's own error texts name the failed step and the name looked up, so two of
      them are equal only when they report the same failure. */
  lemma MessagesIdentifyFailure(e1: Error, e2: Error)
    requires !e1.Remote? && !e2.Remote?
    requires Message(e1) == Message(e2)
    ensures e1 == e2
  {
    assert Message(e1)[0] == Initial(e1) && Message(e2)[0] == Initial(e2);
    if e1.StageNotFound? && e2.StageNotFound? {
      NameInMessage("Stage '", e1.stageName, "' not found or no action states available.");
      NameInMessage("Stage '", e2.stageName, "' not found or no action states available.");
    }
    if e1.ActionOrTokenNotFound? && e2.ActionOrTokenNotFound? {
      NameInMessage("Action '", e1.actionName, "' not found or no approval token available.");
      NameInMessage("Action '", e2.actionName, "' not found or no approval token available.");
    }
  }

  /** The first letter of each of the handler's own error texts. */
  function Initial(e: Error): char {
    match e
    case NoStageStates => 'N'
    case StageNotFound(_) => 'S'
    case ActionOrTokenNotFound(_) => 'A'
    case Remote(_) => ' '
  }

  /** The name spliced into a message template can be read back from it. */
  lemma NameInMessage(prefix: string, name: string, suffix: string)
    ensures |prefix + name + suffix| - |prefix| - |suffix| == |name|
    ensures (prefix + name + suffix)[|prefix|..|prefix + name + suffix| - |suffix|] == name
  {
  }

  /** The `find` predicate `stage.stageName === stageName`. */
  function StageNamed(name: string): StageState -> bool {
    (stage: StageState) => stage.stageName == Some(name)
  }

  /** The `find` predicate `actionState.actionName === actionName`. */
  function ActionNamed(name: string): ActionState -> bool {
    (action: ActionState) => action.actionName == Some(name)
  }

  /** The action's approval token when it passes `action.latestExecution && token` as a
      JavaScript condition, that is, when it is present and not the empty string. */
  function TruthyToken(action: ActionState): (r: Option<string>)
    ensures r.Some? <==> action.latestExecution.Some? && action.latestExecution.value.token.Some?
                         && action.latestExecution.value.token.value != ""
    ensures r.Some? ==> action.latestExecution == Some(ActionExecution(r))
  {
    match action.latestExecution
    case None => None
    case Some(execution) =>
      match execution.token
      case None => None
      case Some(token) => if token == "" then None else Some(token)
  }

  /** The three guarded lookups of the handler, from the snapshot to the approval token. */
  function Resolve(state: PipelineState, stageName: string, actionName: string): (r: Result<string, Error>)
    ensures r == Failure(NoStageStates) <==> state.stageStates.None?
    ensures r.Failure? ==> r.error in {NoStageStates, StageNotFound(stageName), ActionOrTokenNotFound(actionName)}
    ensures r.Success? ==> r.value != ""
  {
    match state.stageStates
    case None => Failure(NoStageStates)
    case Some(stages) =>
      match FirstIndex(stages, StageNamed(stageName))
      case None => Failure(StageNotFound(stageName))
      case Some(i) =>
        match stages[i].actionStates
        case None => Failure(StageNotFound(stageName))
        case Some(actions) =>
          match FirstIndex(actions, ActionNamed(actionName))
          case None => Failure(ActionOrTokenNotFound(actionName))
          case Some(j) =>
            match TruthyToken(actions[j])
            case None => Failure(ActionOrTokenNotFound(actionName))
            case Some(token) => Success(token)
  }

  /** Stage `i` is the first stage named `stageName`, action `j` the first action named
      `actionName` in it, and that action's latest execution holds the non-empty `token`. */
  ghost predicate ResolvesAt(state: PipelineState, stageName: string, actionName: string, i: int, j: int, token: string) {
    state.stageStates.Some?
    && var stages := state.stageStates.value;
    IsFirst(stages, StageNamed(stageName), i)
    && stages[i].actionStates.Some?
    && IsFirst(stages[i].actionStates.value, ActionNamed(actionName), j)
    && stages[i].actionStates.value[j].latestExecution == Some(ActionExecution(Some(token)))
    && token != ""
  }

  /** No stage is named `stageName`, or the first one that is has no action list. */
  ghost predicate StageUnusable(state: PipelineState, stageName: string) {
    state.stageStates.Some?
    && var stages := state.stageStates.value;
    ((forall k :: 0 <= k < |stages| ==> stages[k].stageName != Some(stageName))
     || exists i :: IsFirst(stages, StageNamed(stageName), i) && stages[i].actionStates.None?)
  }

  /** No action in `actions` is named `actionName`, or the first one that is has no execution,
      no token or an empty token. */
  ghost predicate NoApprovableAction(actions: seq<ActionState>, actionName: string) {
    (forall k :: 0 <= k < |actions| ==> actions[k].actionName != Some(actionName))
    || exists j :: IsFirst(actions, ActionNamed(actionName), j)
                   && (actions[j].latestExecution.None?
                       || actions[j].latestExecution.value.token.None?
                       || actions[j].latestExecution.value.token == Some(""))
  }

  /** The stage is found with its action list, but no approvable action is in it. */
  ghost predicate ActionUnusable(state: PipelineState, stageName: string, actionName: string) {
    state.stageStates.Some?
    && var stages := state.stageStates.value;
    exists i :: IsFirst(stages, StageNamed(stageName), i)
                && stages[i].actionStates.Some?
                && NoApprovableAction(stages[i].actionStates.value, actionName)
  }

  /** Resolution yields `token` exactly when the first matching stage's first matching action
      carries it. */
  lemma ResolveSucceedsIff(state: PipelineState, stageName: string, actionName: string, token: string)
    ensures Resolve(state, stageName, actionName) == Success(token)
            <==> exists i, j :: ResolvesAt(state, stageName, actionName, i, j, token)
  {
    if Resolve(state, stageName, actionName) == Success(token) {
      var stages := state.stageStates.value;
      var i := FirstIndex(stages, StageNamed(stageName)).value;
      var actions := stages[i].actionStates.value;
      var j := FirstIndex(actions, ActionNamed(actionName)).value;
      assert ResolvesAt(state, stageName, actionName, i, j, token);
    }
    if exists i, j :: ResolvesAt(state, stageName, actionName, i, j, token) {
      var i, j :| ResolvesAt(state, stageName, actionName, i, j, token);
      var stages := state.stageStates.value;
    }
  }

  /** The stage error is thrown exactly when the stage is missing or the first stage of that
      name has no actions, whatever later stages of the same name hold. */
  lemma ResolveStageNotFoundIff(state: PipelineState, stageName: string, actionName: string)
    ensures Resolve(state, stageName, actionName) == Failure(StageNotFound(stageName))
            <==> StageUnusable(state, stageName)
  {
  }

  /** The action error is thrown exactly when the stage resolves but holds no approvable
      action of that name. */
  lemma ResolveActionNotFoundIff(state: PipelineState, stageName: string, actionName: string)
    ensures Resolve(state, stageName, actionName) == Failure(ActionOrTokenNotFound(actionName))
            <==> ActionUnusable(state, stageName, actionName)
  {
  }

  /** Stages after the first one named `stageName` are never consulted: replacing them by
      anything leaves the outcome unchanged. */
  lemma ResolveIgnoresLaterStages(state: PipelineState, stageName: string, actionName: string, i: int, rest: seq<StageState>)
    requires state.stageStates.Some? && IsFirst(state.stageStates.value, StageNamed(stageName), i)
    ensures Resolve(PipelineState(Some(state.stageStates.value[..i + 1] + rest)), stageName, actionName)
            == Resolve(state, stageName, actionName)
  {
  }

  /** Within the matched stage, actions after the first one named `actionName` are never
      consulted either. */
  lemma ResolveIgnoresLaterActions(state: PipelineState, stageName: string, actionName: string,
                                   i: int, j: int, rest: seq<ActionState>)
    requires state.stageStates.Some? && IsFirst(state.stageStates.value, StageNamed(stageName), i)
    requires state.stageStates.value[i].actionStates.Some?
    requires IsFirst(state.stageStates.value[i].actionStates.value, ActionNamed(actionName), j)
    ensures var stages := state.stageStates.value;
            var actions := stages[i].actionStates.value;
            var changed := stages[i := stages[i].(actionStates := Some(actions[..j + 1] + rest))];
            Resolve(PipelineState(Some(changed)), stageName, actionName) == Resolve(state, stageName, actionName)
  {
  }

  /** Matching is exact: a stage whose name differs from the requested one in any way (in
      letter case, say) is passed over as if it were not there. */
  lemma ResolveSkipsOtherNames(other: StageState, stages: seq<StageState>, stageName: string, actionName: string)
    requires other.stageName != Some(stageName)
    ensures Resolve(PipelineState(Some([other] + stages)), stageName, actionName)
            == Resolve(PipelineState(Some(stages)), stageName, actionName)
  {
  }

  /** The `putApprovalResult` request built from the event and the resolved token. */
  function ApprovalParams(event: LambdaEvent, token: string): PutApprovalResultInput {
    PutApprovalResultInput(event.pipelineName, event.stageName, event.actionName,
                           ApprovalResult(Approved, ApprovalSummary), token)
  }

  /** Two requests are equal exactly when their events agree on the pipeline, stage and
      action names and their tokens agree: nothing else in the event shapes the request. */
  lemma ApprovalParamsDeterminedBy(e1: LambdaEvent, e2: LambdaEvent, t1: string, t2: string)
    ensures ApprovalParams(e1, t1) == ApprovalParams(e2, t2)
            <==> e1.pipelineName == e2.pipelineName && e1.stageName == e2.stageName
                 && e1.actionName == e2.actionName && t1 == t2
  {
  }

  /** What one invocation produces: its return value or thrown error, and the write calls
      made, given what the two remote calls answer. */
  datatype Invocation = Invocation(result: Result<string, Error>, writes: seq<PutApprovalResultInput>)

  function Invoke(event: LambdaEvent, stateReply: Result<PipelineState, ServiceError>,
                  putReply: Result<(), ServiceError>): (inv: Invocation)
    ensures |inv.writes| <= 1
    ensures inv.result.Success? ==> inv.result.value == SuccessMessage && |inv.writes| == 1
    ensures stateReply.Failure? ==> inv == Invocation(Failure(Remote(stateReply.error)), [])
    ensures |inv.writes| == 1 && putReply.Failure? ==> inv.result == Failure(Remote(putReply.error))
  {
    match stateReply
    case Failure(e) => Invocation(Failure(Remote(e)), [])
    case Success(state) =>
      match Resolve(state, event.stageName, event.actionName)
      case Failure(e) => Invocation(Failure(e), [])
      case Success(token) =>
        var params := ApprovalParams(event, token);
        match putReply
        case Failure(e) => Invocation(Failure(Remote(e)), [params])
        case Success(_) => Invocation(Success(SuccessMessage), [params])
  }

  /** Nothing is written unless the stage, the action and a non-empty token all resolve; when
      resolution fails its error is what the caller sees. */
  lemma NoPrematureSubmission(event: LambdaEvent, stateReply: Result<PipelineState, ServiceError>,
                              putReply: Result<(), ServiceError>)
    ensures Invoke(event, stateReply, putReply).writes != []
            <==> stateReply.Success?
                 && exists i, j, token :: ResolvesAt(stateReply.value, event.stageName, event.actionName, i, j, token)
    ensures stateReply.Success? && Resolve(stateReply.value, event.stageName, event.actionName).Failure?
            ==> Invoke(event, stateReply, putReply)
                == Invocation(Failure(Resolve(stateReply.value, event.stageName, event.actionName).error), [])
  {
    if stateReply.Success? {
      var r := Resolve(stateReply.value, event.stageName, event.actionName);
      if r.Success? {
        ResolveSucceedsIff(stateReply.value, event.stageName, event.actionName, r.value);
      }
      if exists i, j, token :: ResolvesAt(stateReply.value, event.stageName, event.actionName, i, j, token) {
        var i, j, token :| ResolvesAt(stateReply.value, event.stageName, event.actionName, i, j, token);
        ResolveSucceedsIff(stateReply.value, event.stageName, event.actionName, token);
      }
    }
  }

  /** On the success path exactly one request is sent: the event's pipeline, stage and action
      names, status Approved, the fixed summary and the token of the matched action. */
  lemma SubmissionCarriesMatchedToken(event: LambdaEvent, state: PipelineState, putReply: Result<(), ServiceError>,
                                      i: int, j: int, token: string)
    requires ResolvesAt(state, event.stageName, event.actionName, i, j, token)
    ensures Invoke(event, Success(state), putReply).writes
            == [PutApprovalResultInput(event.pipelineName, event.stageName, event.actionName,
                                       ApprovalResult(Approved, "Stage approved by Lambda function"), token)]
    ensures Invoke(event, Success(state), putReply).result
            == if putReply.Success? then Success("Stage approval submitted successfully.")
               else Failure(Remote(putReply.error))
  {
  }

  /** The payload's `approvalToken` has no influence on anything the handler does. */
  lemma ApprovalTokenFieldIgnored(event: LambdaEvent, other: string, stateReply: Result<PipelineState, ServiceError>,
                                  putReply: Result<(), ServiceError>)
    ensures Invoke(event.(approvalToken := other), stateReply, putReply) == Invoke(event, stateReply, putReply)
  {
  }

  /** When nothing resolves, re-invoking against the same state throws the same error again
      and writes nothing, whatever the write call would have answered. */
  lemma NotFoundIsStable(event: LambdaEvent, state: PipelineState, put1: Result<(), ServiceError>,
                         put2: Result<(), ServiceError>)
    requires Resolve(state, event.stageName, event.actionName).Failure?
    ensures Invoke(event, Success(state), put1) == Invoke(event, Success(state), put2)
    ensures Invoke(event, Success(state), put1).writes == []
  {
  }

  /** The payload the schedule sends, against a snapshot whose first `Pre_QA_Approval` stage
      offers `Approve_QA` with a token, preceded by a stage whose name differs only in case. */
  lemma ScheduledPayloadApproves()
    ensures var event := LambdaEvent("TimeBoxCodePipeline", "your-approval-token", "Pre_QA_Approval", "Approve_QA");
            var approve := ActionState(Some("Approve_QA"), Some(ActionExecution(Some("tok-123"))));
            var state := PipelineState(Some([
              StageState(Some("pre_qa_approval"), Some([ActionState(Some("Approve_QA"), Some(ActionExecution(Some("tok-lower"))))])),
              StageState(Some("Pre_QA_Approval"), Some([approve])),
              StageState(Some("Pre_QA_Approval"), None)]));
            Invoke(event, Success(state), Success(()))
            == Invocation(Success(SuccessMessage), [ApprovalParams(event, "tok-123")])
  {
  }

  /** The handler: one read, the lookups, then at most one write; what it returns or throws
      and the calls it makes are those of Invoke. */
  method Handler(codePipeline: Client, event: LambdaEvent) returns (r: Result<string, Error>)
    modifies codePipeline`readLog, codePipeline`writeLog
    ensures codePipeline.readLog == old(codePipeline.readLog) + [event.pipelineName]
    ensures r == Invoke(event, codePipeline.stateReply, codePipeline.putReply).result
    ensures codePipeline.writeLog
            == old(codePipeline.writeLog) + Invoke(event, codePipeline.stateReply, codePipeline.putReply).writes
  {
    var pipelineName, stageName, actionName := event.pipelineName, event.stageName, event.actionName;
    var reply := codePipeline.GetPipelineState(pipelineName);
    if reply.Failure? {
      return Failure(Remote(reply.error));
    }
    var resolved := Resolve(reply.value, stageName, actionName);
    if resolved.Failure? {
      return Failure(resolved.error);
    }
    var approvalParams := ApprovalParams(event, resolved.value);
    var response := codePipeline.PutApprovalResult(approvalParams);
    if response.Failure? {
      return Failure(Remote(response.error));
    }
    return Success(SuccessMessage);
  }
}
