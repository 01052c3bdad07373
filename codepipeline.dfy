/** The part of the pipeline control plane the approval handler talks to: the shapes of the
    `getPipelineState` snapshot and of the `putApprovalResult` request, and a client whose
    replies are given up front and which records every call made on it. */
module CodePipeline {
  import opened Wrappers

  /** `latestExecution` of an action; only its approval token matters here. */
  datatype ActionExecution = ActionExecution(token: Option<string>)

  /** One action of a stage; the service may leave the name out. */
  datatype ActionState = ActionState(actionName: Option<string>, latestExecution: Option<ActionExecution>)

  /** One stage of the pipeline, with its actions in order. */
  datatype StageState = StageState(stageName: Option<string>, actionStates: Option<seq<ActionState>>)

  /** The snapshot `getPipelineState` returns: the stages in pipeline order. */
  datatype PipelineState = PipelineState(stageStates: Option<seq<StageState>>)

  datatype ApprovalStatus = Approved | Rejected

  datatype ApprovalResult = ApprovalResult(status: ApprovalStatus, summary: string)

  /** The request `putApprovalResult` takes. */
  datatype PutApprovalResultInput = PutApprovalResultInput(
    pipelineName: string,
    stageName: string,
    actionName: string,
    result: ApprovalResult,
    token: string)

  /** An error the service (or the transport) raised; opaque to the handler. */
  datatype ServiceError = ServiceError(message: string)

  /** A control-plane client. `stateReply` and `putReply` are what the service answers;
      `readLog` and `writeLog` record the calls made, in order. */
  class Client {
    const stateReply: Result<PipelineState, ServiceError>
    const putReply: Result<(), ServiceError>
    var readLog: seq<string>
    var writeLog: seq<PutApprovalResultInput>

    constructor (stateReply: Result<PipelineState, ServiceError>, putReply: Result<(), ServiceError>)
      ensures this.stateReply == stateReply && this.putReply == putReply
      ensures readLog == [] && writeLog == []
    {
      this.stateReply := stateReply;
      this.putReply := putReply;
      readLog := [];
      writeLog := [];
    }

    /** `getPipelineState({ name })`: a read, recorded, that changes nothing else. */
    method GetPipelineState(name: string) returns (reply: Result<PipelineState, ServiceError>)
      modifies this`readLog
      ensures reply == stateReply
      ensures readLog == old(readLog) + [name]
    {
      reply := stateReply;
      readLog := readLog + [name];
    }

    /** `putApprovalResult(params)`: the one state-changing call, recorded whether or not the
        service accepts it. */
    method PutApprovalResult(params: PutApprovalResultInput) returns (reply: Result<(), ServiceError>)
      modifies this`writeLog
      ensures reply == putReply
      ensures writeLog == old(writeLog) + [params]
    {
      reply := putReply;
      writeLog := writeLog + [params];
    }
  }
}
