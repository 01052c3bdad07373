# Scheduled QA-stage approval handler, modelled in Dafny

The repository provisions a delivery pipeline whose QA stage sits behind a manual-approval
action. A daily schedule runs a small function (`handler` in
`lib/lambda/qa-stage-trigger.ts`) that approves that action on its own. The function reads
the pipeline's state, finds the requested stage and then the requested action inside it,
and takes the approval token from that action's latest execution. It then sends a single
`putApprovalResult` call with status `Approved`. Any failure is thrown back to the caller.

This project models that handler:

- `wrappers.dfy` (`Wrappers`): `Option` for the snapshot's optional fields, and `Result`
  for "returned a value" versus "threw".
- `array_find.dfy` (`ArrayFind`): JavaScript's `Array.prototype.find`, stated as the index
  of the first element that satisfies the predicate (`FirstIndex`). It comes with a
  declarative "first match" predicate (`IsFirst`).
- `codepipeline.dfy` (`CodePipeline`): the shapes of the `getPipelineState` snapshot and of
  the `putApprovalResult` request. It also defines a `Client` class, which stands for the
  control-plane client. Its two remote replies are constant fields set at construction. It logs every
  read (`readLog`) and every write (`writeLog`) made on it.
- `qa_stage_trigger.dfy` (`QaStageTrigger`): the invocation payload and the handler's
  errors. `Resolve` is the three guarded lookups as a pure function. `Invoke` gives the
  outcome and the writes of one invocation, for given remote replies. `Handler` is the
  imperative handler, run against a `Client`.

Mapping JavaScript onto the model:

- A field the service may omit is an `Option`. The snapshot's `stageName` and `actionName`
  are optional in the service's types, so a stage or action with no name never matches.
- JavaScript truthiness is written out. An empty array is truthy, so `stageStates: []` gets
  past the "no stage states" check and fails later, at the stage lookup. The same holds for
  `actionStates: []`. An empty-string token is falsy, so it counts as missing.
- The handler throws two kinds of error. Its own are `NoStageStates`,
  `StageNotFound(name)` and `ActionOrTokenNotFound(name)`, with texts given by `Message`.
  A `ServiceError` raised by either remote call is re-thrown without wrapping, so a single
  `Remote(cause)` case serves for both the read and the write.

## Model

| member | source | states |
|---|---|---|
| ArrayFind.FirstIndex | lib/lambda/qa-stage-trigger.ts:25-32 | `find` picks the first element that satisfies the predicate. The result is `Some(i)` exactly when `i` is the first match, and `None` exactly when nothing matches |
| ArrayFind.FirstIndexIgnoresTail | lib/lambda/qa-stage-trigger.ts:25-32 | elements after the first match are never consulted: replacing them with anything leaves the found index unchanged |
| QaStageTrigger.TruthyToken | lib/lambda/qa-stage-trigger.ts:34-38 | the `!action.latestExecution \|\| !...token` guard passes exactly when an execution is present and its token is present and non-empty. The token it yields is that execution's token |
| QaStageTrigger.Resolve | lib/lambda/qa-stage-trigger.ts:20-38 | the "no stage states" error occurs exactly when the snapshot has no stage list. Every failure is one of the three lookup errors, carrying the requested names. A resolved token is never empty |
| QaStageTrigger.ResolveSucceedsIff | lib/lambda/qa-stage-trigger.ts:25-38 | resolution yields `token` if and only if it is the non-empty token of the first action with the requested name, inside the first stage with the requested name |
| QaStageTrigger.ResolveStageNotFoundIff | lib/lambda/qa-stage-trigger.ts:25-29 | the stage error is thrown if and only if there is a stage list and either no stage has the name, or the first stage with the name has no action list (later same-named stages do not matter) |
| QaStageTrigger.ResolveActionNotFoundIff | lib/lambda/qa-stage-trigger.ts:32-36 | the action/token error is thrown if and only if the first matching stage has an action list, and in it no action has the name, or the first such action has no execution, no token or an empty token |
| QaStageTrigger.ResolveIgnoresLaterStages | lib/lambda/qa-stage-trigger.ts:25 | stages after the first stage with the requested name can be replaced by anything without changing the outcome |
| QaStageTrigger.ResolveIgnoresLaterActions | lib/lambda/qa-stage-trigger.ts:32 | within the matched stage, actions after the first action with the requested name can be replaced by anything without changing the outcome |
| QaStageTrigger.ResolveSkipsOtherNames | lib/lambda/qa-stage-trigger.ts:25 | matching uses exact (`===`) equality: putting a stage with any other name in front, even one differing only in letter case, does not change the outcome |
| QaStageTrigger.Message | lib/lambda/qa-stage-trigger.ts:21-35 | a service error keeps its own text. The stage and action error texts begin with `Stage '` and `Action '` followed by the requested name; together with `MessagesIdentifyFailure`, distinct failures get distinct texts |
| QaStageTrigger.MessagesIdentifyFailure | lib/lambda/qa-stage-trigger.ts:21-35 | two of the handler's own error texts are equal only when they report the same failure for the same name |
| QaStageTrigger.ApprovalParamsDeterminedBy | lib/lambda/qa-stage-trigger.ts:40-49 | the request `ApprovalParams` builds is fixed by the event's pipeline, stage and action names and the token alone: two requests are equal exactly when those four agree, so no other event field (such as `approvalToken`) reaches it. Its fixed `Approved` result and summary are stated by `SubmissionCarriesMatchedToken` |
| QaStageTrigger.Invoke | lib/lambda/qa-stage-trigger.ts:17-61 | at most one write is made. Success returns the fixed confirmation message after exactly one write. A failed read is re-thrown unchanged with no write. A failed write is re-thrown unchanged |
| QaStageTrigger.NoPrematureSubmission | lib/lambda/qa-stage-trigger.ts:18-36 | a write is made if and only if the read succeeds and the stage, the action and a non-empty token all resolve. On a lookup failure the lookup's error is thrown and nothing is written |
| QaStageTrigger.SubmissionCarriesMatchedToken | lib/lambda/qa-stage-trigger.ts:38-57 | when resolution succeeds, exactly one request is sent. It carries the event's pipeline, stage and action names, status Approved, the summary `Stage approved by Lambda function` and the matched action's token. The handler then returns the `message` field `Stage approval submitted successfully.`, or throws the write's error |
| QaStageTrigger.ApprovalTokenFieldIgnored | lib/lambda/qa-stage-trigger.ts:7-15 | the payload's `approvalToken` field has no effect on the result or on the request sent |
| QaStageTrigger.NotFoundIsStable | lib/lambda/qa-stage-trigger.ts:20-36 | when resolution fails, invoking again on the same state gives the same error and no write, whatever the write call would have answered |
| QaStageTrigger.ScheduledPayloadApproves | lib/cdk-poc-stack.ts:175-180 | with the payload the schedule sends, a snapshot whose first `Pre_QA_Approval` stage holds `Approve_QA` with token `tok-123` is approved with that token. A stage before it whose name differs only in case, and a later duplicate stage, are both ignored |
| QaStageTrigger.Handler | lib/lambda/qa-stage-trigger.ts:14-62 | the handler makes exactly one read, for the event's pipeline name. What it returns or throws, and the writes it adds to the client's log, are those `Invoke` gives for the client's replies |
| CodePipeline.Client.GetPipelineState | lib/lambda/qa-stage-trigger.ts:18 | the read returns the service's state reply and is recorded in the read log. Nothing else changes |
| CodePipeline.Client.PutApprovalResult | lib/lambda/qa-stage-trigger.ts:54 | the write is appended to the write log whether or not the service accepts it, and returns the service's reply |
| CodePipeline.Client.constructor | lib/lambda/qa-stage-trigger.ts:5 | a client starts with the given replies and with empty call logs |

## Left out

- The handler's return value `{ message: ... }`: this one-field object is reduced to its
  `message` string (`SuccessMessage`).
- Logging (`console.log`, `console.error`): audit output with no effect on behaviour. For
  the same reason, the content of the `putApprovalResult` response is not modelled.
- Creating the client at module scope and the SDK's `.promise()`/`async` mechanics: the
  client is passed to `Handler` explicitly, and a rejected promise is modelled as a thrown
  error (`Failure`).
- Network transport and the control plane's own behaviour: the two remote replies are
  fixed inputs of the `Client`. As a result, the model does not capture the pipeline's
  state changing between the read and the write.
- Concurrent invocations racing for the same single-use token: the protection there comes
  from the remote service, not from the handler.
- Fields of the snapshot that the handler never reads (execution status, timestamps,
  revisions): they are left out of the data types.
- `lib/cdk-poc-stack.ts` (pipeline, build projects, roles and schedule), `bin/cdk-poc.ts`
  (app entry point) and `utils/utils.ts` (a secrets lookup): these are infrastructure
  configuration and a foreign SDK call, with no logic of their own. Only the payload the
  schedule sends is used, in `ScheduledPayloadApproves`.
