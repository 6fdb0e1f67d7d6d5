/**
 * The No-IP dynamic DNS protocol of updater/noip.go: how a reply to an
 * update request becomes the (retry delay, error) pair a provider hands
 * back to the reconciler, which record types the service accepts, and
 * which endpoint a configuration ends up using.
 */
module NoIP {
  import opened Net
  import opened Reconciler

  const NoIPCooldown: Duration := 30 * Minute
  const NoIPForever: Duration := 10 * Hour * 24 * 365

  /** The sentence every permanent failure ends with. */
  const NotAgain: string := "Will not attempt further updates."

  /**
   * noIPError: the decision table from a non-200 response body to a retry
   * delay and an error text. The "911" case has an empty body and Go's
   * switch does not fall through, so it yields a zero delay and an empty
   * (but non-nil) error.
   */
  function NoIPError(response: string): (r: SubmitReply)
    ensures r.err.Some?
    ensures r.retryAfter == 0 <==> response == "911"
    ensures r.retryAfter == NoIPCooldown <==> response == ""
    ensures r.retryAfter == NoIPForever <==> response != "911" && response != ""
    ensures response == "" ==> r.err == Some("Temporary outage.")
  {
    if response == "nohost" then
      SubmitReply(NoIPForever, Some("Hostname supplied does not exist under specified account. " + NotAgain))
    else if response == "badauth" then
      SubmitReply(NoIPForever, Some("Invalid username password combination. " + NotAgain))
    else if response == "badagent" then
      SubmitReply(NoIPForever, Some("Client disabled. " + NotAgain))
    else if response == "abuse" then
      SubmitReply(NoIPForever, Some("Username is blocked due to abuse. " + NotAgain))
    else if response == "911" then
      SubmitReply(0, Some(""))
    else if response == "" then
      SubmitReply(NoIPCooldown, Some("Temporary outage."))
    else
      SubmitReply(NoIPForever, Some("Fatal error: " + response + ". " + NotAgain))
  }

  /** Whether text ends with suffix. */
  predicate EndsWith(text: string, suffix: string)
  {
    |suffix| <= |text| && text[|text| - |suffix|..] == suffix
  }

  /** The text says no further update will be attempted exactly when the delay is the ten-year one. */
  lemma NoIPErrorMessages(response: string)
    ensures var r := NoIPError(response);
      r.retryAfter == NoIPForever <==> EndsWith(r.err.value, NotAgain)
  {
    var r := NoIPError(response);
    var text := r.err.value;
    if r.retryAfter == NoIPForever {
      assert text == text[..|text| - |NotAgain|] + NotAgain;
    } else {
      assert |text| < |NotAgain|;
    }
  }

  /** A response outside the table is quoted in the text, right after "Fatal error: ". */
  lemma NoIPErrorQuotes(response: string)
    requires response !in {"nohost", "badauth", "badagent", "abuse", "911", ""}
    ensures NoIPError(response).err.value[..13] == "Fatal error: "
    ensures NoIPError(response).err.value[13..13 + |response|] == response
  {
    var text := "Fatal error: " + response + ". " + NotAgain;
    assert text[..13] == "Fatal error: ";
    assert text[13..13 + |response|] == response;
  }

  /** The "911" trap: a zero delay and an empty error text. */
  lemma NoIPError911()
    ensures NoIPError("911") == SubmitReply(0, Some(""))
  {
  }

  /**
   * Submit after the request: a failed request is returned as an error
   * with a zero delay, a status other than 200 goes through NoIPError on
   * the body, and a 200 status is a success whatever the body says.
   */
  function NoIPSubmit(reply: HttpReply): (r: SubmitReply)
    ensures r.err.None? <==> reply.Reply? && reply.status == StatusOK
    ensures r.err.None? ==> r.retryAfter == 0
    ensures reply.TransportError? ==> r.retryAfter == 0
    ensures reply.Reply? && reply.status != StatusOK ==> r == NoIPError(reply.body)
  {
    match reply
    case TransportError => SubmitReply(0, Some("transport error"))
    case Reply(status, body) =>
      if status != StatusOK then NoIPError(body) else SubmitReply(0, None)
  }

  /** SupportsRecord: A and AAAA only. */
  predicate SupportsRecord(rtype: RecordType)
  {
    rtype == ARecord || rtype == AAAARecord
  }

  /** The service accepts exactly the record types that have a name. */
  lemma SupportsNamedRecords(rtype: RecordType)
    ensures SupportsRecord(rtype) <==> RecordTypeString(rtype) != ""
  {
  }

  /** UnmarshalYAML's override: a non-empty DefinedEndpoint replaces the configured Endpoint. */
  function ConfiguredEndpoint(defined: string, configured: string): (e: string)
    ensures e == defined || e == configured
    ensures e == configured <== defined == ""
    ensures e == defined <== defined != ""
  {
    if defined != "" then defined else configured
  }

  /** Applying the override once more changes nothing, and with a defined endpoint the configuration is ignored. */
  lemma ConfiguredEndpointStable(defined: string, configured: string, other: string)
    ensures ConfiguredEndpoint(defined, ConfiguredEndpoint(defined, configured)) == ConfiguredEndpoint(defined, configured)
    ensures defined != "" ==> ConfiguredEndpoint(defined, configured) == ConfiguredEndpoint(defined, other)
  {
  }

  /** A provider that answers every request with the same HTTP reply. */
  function Answering(reply: HttpReply): (RecordType, IP) -> SubmitReply
  {
    (rtype, ip) => NoIPSubmit(reply)
  }

  /**
   * A "911" reply costs no cooldown: the record state keeps its last
   * accepted value and the next update at any instant after the failed
   * one submits the same target again.
   */
  lemma NoIP911RetriesNextTime(st: RecordState, raw: IP, cfg: UpdaterConfig, now: Time, later: Time, status: int,
                               now': Time, later': Time, submit': (RecordType, IP) -> SubmitReply)
    requires status != StatusOK
    requires raw != [] && ShouldSubmit(st, Target(raw, cfg), now)
    requires now' > later
    ensures var o := Reconcile(st, raw, cfg, now, later, Answering(Reply(status, "911")));
      o.state == st.(tryAfter := later) &&
      Reconcile(o.state, raw, cfg, now', later', submit').submission == Some(Target(raw, cfg))
  {
    NoIPError911();
  }

  /**
   * A response that maps to the ten-year delay silences the record: no
   * update up to ten years after the failure submits anything, whatever
   * address it looks up.
   */
  lemma NoIPFatalSilences(st: RecordState, raw: IP, cfg: UpdaterConfig, now: Time, later: Time, status: int, body: string,
                          raw': IP, now': Time, later': Time, submit': (RecordType, IP) -> SubmitReply)
    requires status != StatusOK && body != "911" && body != ""
    requires raw != [] && ShouldSubmit(st, Target(raw, cfg), now)
    requires now' <= later + NoIPForever
    ensures var o := Reconcile(st, raw, cfg, now, later, Answering(Reply(status, body)));
      o.state == st.(tryAfter := later + NoIPForever) &&
      Reconcile(o.state, raw', cfg, now', later', submit').submission.None?
  {
  }
}
