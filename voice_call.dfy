/**
 * The voice call state of the browser client (`src/hooks/useVapiVoiceCall.ts`):
 * a three-field record that the voice client's events and the call button
 * replace step by step. The voice client itself is not modelled: whether it
 * could be created and whether a start request succeeds are parameters, and
 * the button reports what it asked the client to do.
 */
module VoiceCall {
  import opened Wrappers
  import opened Strings
  import opened Types

  datatype VoiceCallState = VoiceCallState(isCallActive: bool, isConnecting: bool, callStatus: string)

  /** What the call button asks of the voice client. */
  datatype StartTarget = ConfiguredAssistant(id: string) | DefaultAssistant
  datatype ClientRequest = NoRequest | Stop | Start(target: StartTarget)

  /** A message event of the voice client. */
  datatype VapiMessage = VapiMessage(kind: string, role: string, transcript: Option<string>)

  const Connected: string := "Connected"
  const ErrorOccurred: string := "Error occurred"
  const EndingCall: string := "Ending call..."
  const Connecting: string := "Connecting..."
  const FailedToConnect: string := "Failed to connect"

  const Idle: VoiceCallState := VoiceCallState(false, false, "")

  /** A setting that is set, non-empty and not a placeholder (`!key || key.includes('placeholder')` is false). */
  predicate Usable(setting: Option<string>) {
    setting.Some? && setting.value != [] && !IsSubstring("placeholder", setting.value)
  }

  /** The assistant to start: the configured one when it is usable, otherwise the built-in default. */
  function Target(assistantId: Option<string>): (t: StartTarget)
    ensures t.ConfiguredAssistant? <==> Usable(assistantId)
    ensures t.ConfiguredAssistant? ==> t.id == assistantId.value
  {
    if Usable(assistantId) then ConfiguredAssistant(assistantId.value) else DefaultAssistant
  }

  /**
   * The message handler's filter: a chat message is made only from a
   * transcript event with a non-empty transcript, carrying its text and its
   * role name as they are.
   */
  function TranscriptMessage(ev: VapiMessage, id: string, now: int): (m: Option<Message>)
    ensures m.Some? <==> ev.kind == "transcript" && ev.transcript.Some? && ev.transcript.value != []
    ensures m.Some? ==> m.value.id == id && m.value.content == ev.transcript.value &&
                        RoleName(m.value.role) == ev.role && m.value.createdAt == now
  {
    if ev.kind == "transcript" && ev.transcript.Some? && ev.transcript.value != [] then
      Some(Message(id, RoleOf(ev.role), ev.transcript.value, now))
    else None
  }

  /** The voice state of one `useVapiVoiceCall` hook and whether its client exists. */
  class VoiceCallSession {
    var state: VoiceCallState
    const hasClient: bool

    /**
     * The states the handlers can produce: a connecting call is not active
     * yet and says so, an active call is not connecting, and the status is
     * one of the handler's texts.
     */
    predicate Valid()
      reads this
    {
      && (state.isConnecting ==> !state.isCallActive && state.callStatus == Connecting)
      && (state.callStatus == "" || state.callStatus == Connected || state.callStatus == ErrorOccurred ||
          state.callStatus == EndingCall || state.callStatus == Connecting || state.callStatus == FailedToConnect)
    }

    /** The hook starts idle; the client exists only with a usable public key and when it could be created. */
    constructor(publicKey: Option<string>, clientCreates: bool)
      ensures state == Idle && Valid()
      ensures hasClient <==> Usable(publicKey) && clientCreates
    {
      state := Idle;
      hasClient := Usable(publicKey) && clientCreates;
    }

    /** `call-start`: whatever came before, the call is active and connected. */
    method OnCallStart()
      modifies this
      ensures state == VoiceCallState(true, false, Connected) && Valid()
    {
      state := VoiceCallState(true, false, Connected);
    }

    /** `call-end`: whatever came before, back to idle. */
    method OnCallEnd()
      modifies this
      ensures state == Idle && Valid()
    {
      state := Idle;
    }

    /** `error`: whatever came before, no call and an error status. */
    method OnError()
      modifies this
      ensures state == VoiceCallState(false, false, ErrorOccurred) && Valid()
    {
      state := VoiceCallState(false, false, ErrorOccurred);
    }

    /**
     * `startCall()`. Without a client nothing changes. During a call only the
     * status changes, to "Ending call...", and the client is told to stop.
     * Otherwise the status shows the connection attempt, the client is asked
     * to start the chosen assistant, and a failed start leaves no call and a
     * failure status.
     */
    method StartCall(assistantId: Option<string>, startSucceeds: bool) returns (request: ClientRequest)
      requires Valid()
      modifies this
      ensures Valid()
      ensures !hasClient ==> request == NoRequest && state == old(state)
      ensures hasClient && old(state).isCallActive ==>
        request == Stop && state == old(state).(callStatus := EndingCall)
      ensures hasClient && !old(state).isCallActive && startSucceeds ==>
        request == Start(Target(assistantId)) && state == old(state).(isConnecting := true, callStatus := Connecting)
      ensures hasClient && !old(state).isCallActive && !startSucceeds ==>
        request == Start(Target(assistantId)) && state == VoiceCallState(false, false, FailedToConnect)
    {
      if !hasClient {
        return NoRequest;
      }
      if state.isCallActive {
        state := state.(callStatus := EndingCall);
        return Stop;
      }
      state := state.(isConnecting := true, callStatus := Connecting);
      request := Start(Target(assistantId));
      if !startSucceeds {
        state := VoiceCallState(false, false, FailedToConnect);
      }
    }
  }
}
