/**
 * The call reducer of the call context: the current call (if any) and how
 * each call action changes it. The calls into the operating system's call
 * UI, the ring timer and its abort controller are side effects that the
 * reducer's result does not depend on and are not modelled.
 */
module CallContext {
  import opened Wrappers
  import opened MessageTypes

  type CallId = string

  datatype CallState = Unanswered | Answered | Outgoing

  datatype Call = Call(
    callId: CallId,
    chatId: ChatId,
    initiatedVideoCall: Option<bool>,  // `undefined` when the action did not say
    callState: CallState)

  /** `undefined` (no call) is `None`. */
  type CurrentCall = Option<Call>

  datatype CallAction =
    | IncomingCall(chatId: ChatId, callId: CallId, callRingTimeSeconds: int)
    | OutgoingCall(chatId: ChatId, callId: CallId, initiatedVideoCall: Option<bool>)
    | AnswerCall(initiatedVideoCall: Option<bool>)
    | DeclineCall
    | EndCall

  function ManageCall(state: CurrentCall, action: CallAction): (next: CurrentCall)
    // a new call is refused while one is in progress
    ensures (action.OutgoingCall? || action.IncomingCall?) && state.Some? ==> next == state
    ensures action.OutgoingCall? && state.None? ==>
              next == Some(Call(action.callId, action.chatId, action.initiatedVideoCall, Outgoing))
    ensures action.IncomingCall? && state.None? ==>
              next == Some(Call(action.callId, action.chatId, None, Unanswered))
    // only an unanswered call can be answered or declined
    ensures action.AnswerCall? ==>
              if state.Some? && state.value.callState == Unanswered
              then next == Some(state.value.(callState := Answered, initiatedVideoCall := action.initiatedVideoCall))
              else next == state
    ensures action.DeclineCall? ==>
              if state.Some? && state.value.callState == Unanswered then next == None else next == state
    // ending needs a call with a non-empty id
    ensures action.EndCall? ==>
              if state.None? || state.value.callId == "" then next == state else next == None
  {
    match action
    case OutgoingCall(chatId, callId, video) =>
      if state.Some? then state else Some(Call(callId, chatId, video, Outgoing))
    case IncomingCall(chatId, callId, _) =>
      if state.Some? then state else Some(Call(callId, chatId, None, Unanswered))
    case AnswerCall(video) =>
      if state.None? || state.value.callState != Unanswered then state
      else Some(state.value.(callState := Answered, initiatedVideoCall := video))
    case DeclineCall =>
      if state.Some? && state.value.callState == Unanswered then None else state
    case EndCall =>
      if state.None? || state.value.callId == "" then state else None
  }

  predicate IsAnswered(state: CurrentCall) {
    state.Some? && state.value.callState == Answered
  }

  /** A single step enters `answered` only from `unanswered`, keeping its ids. */
  lemma AnsweredOnlyFromUnanswered(state: CurrentCall, action: CallAction)
    requires !IsAnswered(state) && IsAnswered(ManageCall(state, action))
    ensures state.Some? && state.value.callState == Unanswered && action.AnswerCall?
    ensures ManageCall(state, action).value.callId == state.value.callId
    ensures ManageCall(state, action).value.chatId == state.value.chatId
  {
  }

  /** The states visited by a run of actions, the start state first. */
  function Run(state: CurrentCall, actions: seq<CallAction>): (trace: seq<CurrentCall>)
    ensures |trace| == |actions| + 1 && trace[0] == state
    ensures forall i :: 0 <= i < |actions| ==> trace[i + 1] == ManageCall(trace[i], actions[i])
    decreases |actions|
  {
    if actions == [] then [state]
    else [state] + Run(ManageCall(state, actions[0]), actions[1..])
  }

  /**
   * In every run, whenever the call becomes answered the state just before
   * was an unanswered call: no call and an outgoing call never step to
   * `answered` directly.
   */
  lemma {:induction false} RunAnsweredOnlyFromUnanswered(state: CurrentCall, actions: seq<CallAction>, i: nat)
    requires i < |actions|
    requires IsAnswered(Run(state, actions)[i + 1]) && !IsAnswered(Run(state, actions)[i])
    ensures Run(state, actions)[i].Some? && Run(state, actions)[i].value.callState == Unanswered
  {
    var trace := Run(state, actions);
    AnsweredOnlyFromUnanswered(trace[i], actions[i]);
  }

  /**
   * Starting from no call, a run reaches an answered call only after an
   * incoming call has put an unanswered call in place.
   */
  lemma {:induction false} AnsweredNeedsIncoming(actions: seq<CallAction>, i: nat)
    requires i < |actions| + 1 && IsAnswered(Run(None, actions)[i])
    ensures exists j :: 0 <= j < i && actions[j].IncomingCall?
  {
    var trace := Run(None, actions);
    // the last step into the answered state came from an unanswered call
    var k := LastEntry(trace, i);
    RunAnsweredOnlyFromUnanswered(None, actions, k);
    // and an unanswered call can only come from an incoming-call action
    var j := UnansweredCameFromIncoming(actions, k);
    assert j < i;
  }

  /** The last index before `i` whose state is not answered. */
  lemma LastEntry(trace: seq<CurrentCall>, i: nat) returns (k: nat)
    requires i < |trace| && trace[0] == None && IsAnswered(trace[i])
    ensures k < i && !IsAnswered(trace[k]) && IsAnswered(trace[k + 1])
    decreases i
  {
    if IsAnswered(trace[i - 1]) {
      k := LastEntry(trace, i - 1);
    } else {
      k := i - 1;
    }
  }

  /** An unanswered state in a run from no call was created by an incoming call. */
  lemma {:induction false} UnansweredCameFromIncoming(actions: seq<CallAction>, k: nat) returns (j: nat)
    requires k < |actions| + 1
    requires Run(None, actions)[k].Some? && Run(None, actions)[k].value.callState == Unanswered
    ensures j < k && actions[j].IncomingCall?
    decreases k
  {
    var trace := Run(None, actions);
    assert k > 0;
    if actions[k - 1].IncomingCall? {
      j := k - 1;
    } else {
      // no other action creates an unanswered call, so it was there before
      assert trace[k] == ManageCall(trace[k - 1], actions[k - 1]);
      j := UnansweredCameFromIncoming(actions, k - 1);
    }
  }
}
