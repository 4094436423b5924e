/**
  The diagnostics page's two actions: the connection test, which connects,
  logs in and quits, and the test send, which builds one message (signed
  when a signature file is present) and submits it. Both refuse to start
  without their required fields, and both pick the endpoint with the page's
  own inline rules.
 */
module Diagnostics {
  import opened Common
  import opened Text
  import opened Transport
  import opened Mime

  /** The signature files looked for, in the order they are tried. */
  const SignatureCandidates: seq<string> := ["firstmail.jpg", "firstmail.png", "firstmail.jpeg"]

  /** The first candidate among `present`, the names of the files that exist. */
  function FindSignature(present: set<string>): (r: Option<string>)
    ensures r.Some? <==> exists i :: 0 <= i < |SignatureCandidates| && SignatureCandidates[i] in present
    ensures r.Some? ==> r.value in present && r.value in SignatureCandidates
    ensures r.Some? ==> forall i :: 0 <= i < |SignatureCandidates| && SignatureCandidates[i] == r.value ==>
      forall j :: 0 <= j < i ==> SignatureCandidates[j] !in present
  {
    if SignatureCandidates[0] in present then Some(SignatureCandidates[0])
    else if SignatureCandidates[1] in present then Some(SignatureCandidates[1])
    else if SignatureCandidates[2] in present then Some(SignatureCandidates[2])
    else None
  }

  // ---------------------------------------------------------------------------
  // The connection test.
  // ---------------------------------------------------------------------------

  /** Why a step of a session failed. */
  datatype Fault = AuthRejected | TimedOut | Other(kind: string, text: string)

  /** How far a session got: failing while connecting (and upgrading), at login, at quit, or not at all. */
  datatype SessionRun =
    | FailedConnecting(fault: Fault)
    | FailedLogin(fault: Fault)
    | FailedQuit(fault: Fault)
    | Completed

  /** One line of the connection test's log. */
  datatype LogLine =
    | Connecting(host: string, port: int)
    | SslEstablished
    | StartTlsEstablished
    | LoginSuccessful
    | Failure(fault: Fault)

  /** The connection test either refuses to start or reports success and a log. */
  datatype ConnectionReport = MissingCredentials | Report(ok: bool, log: seq<LogLine>)

  /** The log line for an established session, by how it was opened. */
  function Established(e: Endpoint): LogLine
  {
    if e.port == 465 then SslEstablished else StartTlsEstablished
  }

  /** The log of a session with `e` that got as far as `run` says: where it connected, the handshake, the login, and the fault that stopped it. */
  function SessionLog(e: Endpoint, run: SessionRun): (log: seq<LogLine>)
    ensures 2 <= |log| <= 4
    ensures log[0] == Connecting(e.host, e.port)
    ensures run.Completed? <==> log[|log| - 1] == LoginSuccessful
    ensures !run.Completed? ==> log[|log| - 1] == Failure(run.fault)
    ensures run.FailedQuit? ==> log[|log| - 2] == LoginSuccessful
    ensures !run.FailedConnecting? ==> log[1] == Established(e)
  {
    var start := [Connecting(e.host, e.port)];
    match run
    case FailedConnecting(f) => start + [Failure(f)]
    case FailedLogin(f) => start + [Established(e), Failure(f)]
    case FailedQuit(f) => start + [Established(e), LoginSuccessful, Failure(f)]
    case Completed => start + [Established(e), LoginSuccessful]
  }

  /**
    The connection test: without an email or a password it only warns;
    otherwise it logs where it connects, the handshake, the login, and the
    first failure, and succeeds only when login and quit both went through.
   */
  function RunConnectionTest(address: string, password: string, hostField: string, portField: int,
                          run: SessionRun): (r: ConnectionReport)
    ensures r.MissingCredentials? <==> address == "" || password == ""
    ensures r.Report? ==> (r.ok <==> run == Completed)
    ensures r.Report? ==> 2 <= |r.log| <= 4
    ensures r.Report? ==>
      var e := ProbeEndpoint(ConnectionTest, address, hostField, portField);
      r.log[0] == Connecting(e.host, e.port)
    ensures r.Report? ==> (r.ok <==> r.log[|r.log| - 1] == LoginSuccessful)
    ensures r.Report? && !run.Completed? ==> r.log[|r.log| - 1] == Failure(run.fault)
    ensures r.Report? && run.FailedQuit? ==> r.log[|r.log| - 2] == LoginSuccessful
  {
    if address == "" || password == "" then MissingCredentials
    else Report(run == Completed, SessionLog(ProbeEndpoint(ConnectionTest, address, hostField, portField), run))
  }

  /** Once the handshake is logged, it names implicit TLS exactly when the endpoint is on port 465, and STARTTLS otherwise. */
  lemma HandshakeMatchesEndpoint(address: string, password: string, hostField: string, portField: int, run: SessionRun)
    requires address != "" && password != "" && !run.FailedConnecting?
    ensures var r := RunConnectionTest(address, password, hostField, portField, run);
      var e := ProbeEndpoint(ConnectionTest, address, hostField, portField);
      && r.Report?
      && (r.log[1] == SslEstablished <==> e.mode == ImplicitTls)
      && (r.log[1] == StartTlsEstablished <==> e.mode == StartTls)
  {
  }

  // ---------------------------------------------------------------------------
  // The test send.
  // ---------------------------------------------------------------------------

  /** The test send either refuses to start or submits one message to one endpoint. */
  datatype TestSendPlan = MissingFields | Submit(endpoint: Endpoint, message: Message)

  /**
    The test send: without a sender, a password or a recipient it only
    warns; otherwise it connects where the page's rules say for the sender
    and submits the test message, signed when a signature was found.
   */
  function PlanTestSend(from: string, password: string, to: string, hostField: string, portField: int,
                    subject: string, body: string, sigName: Option<string>, sigData: Option<seq<byte>>): (p: TestSendPlan)
    ensures p.MissingFields? <==> from == "" || password == "" || to == ""
    ensures p.Submit? ==> p.endpoint == ProbeEndpoint(TestSend, from, hostField, portField)
    ensures p.Submit? ==> p.message.from == from && p.message.to == to && p.message.subject == subject
    ensures p.Submit? ==> p.message.root.Multipart? && |p.message.root.parts| > 0
    ensures p.Submit? ==> p.message == TestMessage(from, to, subject, body, sigData, sigName)
  {
    if from == "" || password == "" || to == "" then MissingFields
    else
      var m := TestMessage(from, to, subject, body, sigData, sigName);
      Submit(ProbeEndpoint(TestSend, from, hostField, portField), m)
  }

  /**
    What the test send submits reads back as the entered body first, with no
    attachment, and carries `signature_image` as its only Content-ID exactly
    when a signature was found.
   */
  lemma TestSendReadBack(from: string, password: string, to: string, hostField: string, portField: int,
                         subject: string, body: string, sigName: Option<string>, sigData: Option<seq<byte>>)
    requires from != "" && password != "" && to != ""
    ensures var p := PlanTestSend(from, password, to, hostField, portField, subject, body, sigName, sigData);
      && p.Submit?
      && FirstPlain(Leaves(p.message.root)) == Some(body)
      && AttachmentNames(Leaves(p.message.root)) == []
      && (ContentIds(Leaves(p.message.root)) == [SignatureId] <==> TruthyBytes(sigData) && TruthyText(sigName))
  {
    TestMessageReadBack(from, to, subject, body, sigData, sigName);
    if !(TruthyBytes(sigData) && TruthyText(sigName)) {
      assert ContentIds([TextPart("plain", body)]) == [];
    }
  }

  /** The endpoint depends on the sender only: changing the recipient, subject or body moves nothing. */
  lemma RoutingIgnoresRecipient(from: string, password: string, to1: string, to2: string, hostField: string, portField: int,
                                subject: string, body: string, sigName: Option<string>, sigData: Option<seq<byte>>)
    requires from != "" && password != "" && to1 != "" && to2 != ""
    ensures PlanTestSend(from, password, to1, hostField, portField, subject, body, sigName, sigData).endpoint
         == PlanTestSend(from, password, to2, hostField, portField, "", "", None, None).endpoint
  {
  }

  /** The connection test and the test send part ways only for an unknown domain with no host entered and a port other than 587. */
  lemma {:induction false} TestsShareEndpointOnSubmissionPort(address: string, password: string, to: string, hostField: string,
                                                              subject: string, body: string)
    requires address != "" && password != "" && to != ""
    ensures PlanTestSend(address, password, to, hostField, 587, subject, body, None, None).endpoint
         == ProbeEndpoint(ConnectionTest, address, hostField, 587)
  {
  }

  /** With only `firstmail.png` and `firstmail.jpeg` on disk the PNG wins; other names are never looked for. */
  lemma SignatureSearchExample()
    ensures FindSignature({"firstmail.png", "firstmail.jpeg"}) == Some("firstmail.png")
    ensures FindSignature({"signature.jpg"}) == None
  {
    assert SignatureCandidates[0] !in {"firstmail.png", "firstmail.jpeg"};
  }
}
