/**
  Choosing where and how to connect for mail submission.

  Port 465 is submission over implicit TLS (section 3.3 of RFC 8314); any
  other port is reached in the clear and, when the settings ask for it,
  upgraded with STARTTLS (RFC 3207) before logging in; 587 is the message
  submission port of RFC 6409.

  Two pieces of code make this choice. The bulk sender derives a settings
  record from the sender's domain or from an explicit host and port. The
  diagnostics page inlines its own variant, once for the connection test and
  once for the test send, and the two differ from each other and from the
  bulk sender in small ways that are modelled here as written.
 */
module Transport {
  import opened Common
  import opened Text

  /** The bulk sender's settings record: host, port and the two TLS switches. */
  datatype Settings = Settings(host: string, port: int, useSsl: bool, useTls: bool)

  /** How the session is opened. */
  datatype Mode =
    | ImplicitTls   // TLS from the first byte
    | StartTls      // plain connection upgraded with STARTTLS before login
    | Plaintext     // plain connection, never upgraded

  /** The provider domains served by the Outlook submission host. */
  const OutlookFamily: set<string> := {"outlook.com", "hotmail.com", "live.com"}

  const GmailHost := "smtp.gmail.com"
  const OutlookHost := "smtp-mail.outlook.com"

  /**
    The bulk sender's view of the sender domain: the lower-cased text after
    the last `@`, or the empty string when the address has no `@`.
   */
  function SenderDomain(address: string): (d: string)
    ensures '@' !in d
    ensures '@' !in address ==> d == ""
    ensures '@' in address ==> |d| < |address|
    ensures '@' in address ==>
      exists i :: (0 <= i < |address| && address[i] == '@' && '@' !in address[i + 1..] && d == Lower(address[i + 1..]))
  {
    if '@' in address then
      var after := AfterLast(address, '@');
      assert '@' !in Lower(after) by {
        assert forall i :: 0 <= i < |after| ==> Lower(after)[i] == LowerChar(after[i]) && after[i] != '@';
      }
      DomainFollowsLastAt(address);
      Lower(after)
    else ""
  }

  /** The domain part starts right after an `@` that no later `@` follows. */
  lemma DomainFollowsLastAt(address: string)
    requires '@' in address
    ensures exists i :: (0 <= i < |address| && address[i] == '@' && '@' !in address[i + 1..]
      && Lower(AfterLast(address, '@')) == Lower(address[i + 1..]))
  {
    AfterLastAt(address, '@');
    var i := |address| - |AfterLast(address, '@')| - 1;
    assert address[i + 1..] == AfterLast(address, '@');
  }

  /** `get_smtp_settings`: settings guessed from the sender's domain. */
  function AutoSettings(address: string): (s: Settings)
    ensures Consistent(s)
    ensures s.port == 465 <==> Contains(SenderDomain(address), "gmail.com")
    ensures s.port == 465 || s.port == 587
    ensures s.host in {GmailHost, OutlookHost, "smtp." + SenderDomain(address)}
    ensures '@' !in address ==> s == Settings(GmailHost, 587, false, true)
  {
    var domain := SenderDomain(address);
    if Contains(domain, "gmail.com") then Settings(GmailHost, 465, true, false)
    else if domain in OutlookFamily then Settings(OutlookHost, 587, false, true)
    else Settings(if domain != "" then "smtp." + domain else GmailHost, 587, false, true)
  }

  /**
    The settings `create_smtp_connection` uses: an explicit host and port win
    when both are truthy, with the TLS switches derived from the port;
    otherwise the domain guess.
   */
  function ChooseSettings(address: string, host: Option<string>, port: Option<int>): (s: Settings)
    ensures Consistent(s)
    ensures TruthyText(host) && port.Some? && port.value != 0 ==> s.host == host.value && s.port == port.value
    ensures !(TruthyText(host) && port.Some? && port.value != 0) ==> s == AutoSettings(address)
  {
    if TruthyText(host) && port.Some? && port.value != 0 then
      Settings(host.value, port.value, port.value == 465, port.value == 587)
    else AutoSettings(address)
  }

  /** The TLS switches agree with the port: implicit TLS exactly on 465, STARTTLS exactly on 587. */
  predicate Consistent(s: Settings)
  {
    (s.useSsl <==> s.port == 465) && (s.useTls <==> s.port == 587)
  }

  /** How `create_smtp_connection` opens a session for given settings. */
  function ModeOf(s: Settings): (m: Mode)
    ensures m == ImplicitTls <==> s.useSsl
    ensures m == StartTls <==> !s.useSsl && s.useTls
    ensures Consistent(s) ==> m == (if s.port == 465 then ImplicitTls else if s.port == 587 then StartTls else Plaintext)
  {
    if s.useSsl then ImplicitTls else if s.useTls then StartTls else Plaintext
  }

  /** Whatever the bulk sender chooses, its switches agree with its port, so they are never both on. */
  lemma ChosenSettingsConsistent(address: string, host: Option<string>, port: Option<int>)
    ensures Consistent(ChooseSettings(address, host, port))
    ensures !(ChooseSettings(address, host, port).useSsl && ChooseSettings(address, host, port).useTls)
  {
  }

  /** The session mode of the bulk sender is a function of the chosen port alone. */
  lemma {:induction false} ModeFollowsPort(address: string, host: Option<string>, port: Option<int>)
    ensures var s := ChooseSettings(address, host, port);
      ModeOf(s) == (if s.port == 465 then ImplicitTls else if s.port == 587 then StartTls else Plaintext)
  {
    ChosenSettingsConsistent(address, host, port);
  }

  /** The domain guess, case by case; an empty domain (no `@`, or nothing after the last one) falls back to the Gmail host on 587. */
  lemma AutoSettingsCases(address: string)
    ensures var s := AutoSettings(address); var d := SenderDomain(address);
      && (Contains(d, "gmail.com") ==> s == Settings(GmailHost, 465, true, false))
      && (!Contains(d, "gmail.com") && d in OutlookFamily ==> s == Settings(OutlookHost, 587, false, true))
      && (!Contains(d, "gmail.com") && d !in OutlookFamily && d != "" ==> s == Settings("smtp." + d, 587, false, true))
      && (d == "" ==> s == Settings(GmailHost, 587, false, true))
      && ('@' !in address ==> s == Settings(GmailHost, 587, false, true))
  {
    if SenderDomain(address) == "" {
      assert !Contains("", "gmail.com");
    }
  }

  /**
    The override as the app's form builds it: the host field stripped, and
    the port taken only when a host was entered.
   */
  function FormOverride(hostField: string, portField: int): (o: (Option<string>, Option<int>))
    ensures o.0.Some? <==> o.1.Some?
    ensures o.0.Some? ==> o.0.value != "" && o.1.value == portField
    ensures o.0.Some? <==> Strip(hostField) != ""
    ensures o.0.Some? ==> o.0.value == Strip(hostField)
  {
    var h := Strip(hostField);
    if h != "" then (Some(h), Some(portField)) else (None, None)
  }

  /** With the form's port (never 0), the override is used exactly when a host was entered. */
  lemma {:induction false} OverrideIffHostEntered(address: string, hostField: string, portField: int)
    requires portField != 0
    ensures var o := FormOverride(hostField, portField);
      ChooseSettings(address, o.0, o.1) ==
        if Strip(hostField) != "" then
          Settings(Strip(hostField), portField, portField == 465, portField == 587)
        else AutoSettings(address)
  {
  }

  // ---------------------------------------------------------------------------
  // The diagnostics page's inline variant.
  // ---------------------------------------------------------------------------

  /**
    The diagnostics page's view of the sender domain: the lower-cased text
    after the last `@`; with no `@` it is the whole lower-cased address.
   */
  function ProbeDomain(address: string): (d: string)
    ensures '@' !in d
    ensures '@' !in address ==> d == Lower(address)
    ensures '@' in address ==> d == SenderDomain(address)
  {
    var after := AfterLast(address, '@');
    assert forall i :: 0 <= i < |after| ==> Lower(after)[i] == LowerChar(after[i]) && after[i] != '@';
    Lower(after)
  }

  /** Which button of the diagnostics page is choosing. */
  datatype Purpose = ConnectionTest | TestSend

  /** Where and how a session is opened. */
  datatype Endpoint = Endpoint(host: string, port: int, mode: Mode)

  /** The diagnostics page opens implicit TLS exactly on port 465 and STARTTLS on every other port. */
  function ProbeMode(port: int): (m: Mode)
    ensures m == ImplicitTls <==> port == 465
    ensures m != Plaintext
  {
    if port == 465 then ImplicitTls else StartTls
  }

  /**
    The endpoint the diagnostics page connects to: a non-blank host field
    wins with the entered port; otherwise provider guesses, and for any other
    domain `smtp.<domain>` on 587 for the connection test but on the entered
    port for the test send.
   */
  function ProbeEndpoint(purpose: Purpose, address: string, hostField: string, portField: int): (e: Endpoint)
    ensures e.mode == ImplicitTls <==> e.port == 465
    ensures e.mode != Plaintext
    ensures Strip(hostField) != "" ==> e.host == Strip(hostField) && e.port == portField
    ensures var d := ProbeDomain(address);
      Strip(hostField) == "" && Contains(d, "gmail.com") ==> e.host == GmailHost && e.port == 465
    ensures var d := ProbeDomain(address);
      Strip(hostField) == "" && !Contains(d, "gmail.com") && d in OutlookFamily ==> e.host == OutlookHost && e.port == 587
    ensures var d := ProbeDomain(address);
      Strip(hostField) == "" && !Contains(d, "gmail.com") && d !in OutlookFamily ==>
        e.host == "smtp." + d && e.port == (if purpose == ConnectionTest then 587 else portField)
  {
    var domain := ProbeDomain(address);
    var hp :=
      if Strip(hostField) != "" then (Strip(hostField), portField)
      else if Contains(domain, "gmail.com") then (GmailHost, 465)
      else if domain in OutlookFamily then (OutlookHost, 587)
      else ("smtp." + domain, if purpose == ConnectionTest then 587 else portField);
    Endpoint(hp.0, hp.1, ProbeMode(hp.1))
  }

  /**
    For an address with an `@` followed by some text, no host override, and
    the submission port, the diagnostics page connects exactly where the bulk
    sender would. (For an address ending in `@` they differ: the bulk sender
    falls back to the Gmail host, the diagnostics page tries `smtp.`.)
   */
  lemma {:induction false} ProbeAgreesWithApp(purpose: Purpose, address: string, hostField: string, portField: int)
    requires '@' in address && SenderDomain(address) != "" && Strip(hostField) == ""
    requires purpose == ConnectionTest || portField == 587
    ensures var s := AutoSettings(address);
      ProbeEndpoint(purpose, address, hostField, portField) == Endpoint(s.host, s.port, ModeOf(s))
  {
    var d := SenderDomain(address);
    assert ProbeDomain(address) == d;
  }

  /** The two purposes differ only for unknown domains without a host override, and only in the port. */
  lemma {:induction false} ProbePurposesDiverge(address: string, hostField: string, portField: int)
    requires Strip(hostField) == ""
    requires !Contains(ProbeDomain(address), "gmail.com") && ProbeDomain(address) !in OutlookFamily
    ensures ProbeEndpoint(ConnectionTest, address, hostField, portField).port == 587
    ensures ProbeEndpoint(TestSend, address, hostField, portField).port == portField
    ensures ProbeEndpoint(ConnectionTest, address, hostField, portField).host
         == ProbeEndpoint(TestSend, address, hostField, portField).host
  {
  }

  /** An address without `@`: the bulk sender falls back to the Gmail host. */
  lemma NoAtAppExample()
    ensures AutoSettings("alice").host == GmailHost
  {
    assert '@' !in "alice";
  }

  lemma LowerAliceExample()
    ensures ProbeDomain("alice") == "alice"
  {
    var a := "alice";
    assert '@' !in a && forall i :: 0 <= i < |a| ==> !('A' <= a[i] <= 'Z');
    LowerKeeps(a);
  }

  /** An address without `@`: the diagnostics page guesses from the whole address. */
  lemma NoAtProbeExample()
    ensures ProbeEndpoint(ConnectionTest, "alice", "", 587).host == "smtp.alice"
  {
    assert ProbeDomain("alice") == "alice" by {
      LowerAliceExample();
    }
    assert !Contains("alice", "gmail.com") && "alice" !in OutlookFamily;
    assert Strip("") == "";
    ProbeGuessesSmtp(ConnectionTest, "alice", "", 587, "alice");
  }

  /** With no host entered and a domain that is neither Gmail nor Outlook, the diagnostics page tries `smtp.` plus the domain. */
  lemma ProbeGuessesSmtp(purpose: Purpose, address: string, hostField: string, portField: int, domain: string)
    requires Strip(hostField) == "" && ProbeDomain(address) == domain
    requires !Contains(domain, "gmail.com") && domain !in OutlookFamily
    ensures ProbeEndpoint(purpose, address, hostField, portField).host == "smtp." + domain
  {
  }

  /** An explicit port 25: the bulk sender stays in plaintext. */
  lemma ExplicitPortAppExample()
    ensures ModeOf(ChooseSettings("a@b.org", Some("mail.b.org"), Some(25))) == Plaintext
  {
  }

  /** An explicit port 25: the diagnostics page still issues STARTTLS. */
  lemma ExplicitPortProbeExample()
    ensures ProbeEndpoint(ConnectionTest, "a@b.org", "mail.b.org", 25).mode == StartTls
  {
    StripKeepsTrimmed("mail.b.org");
  }

  /** An address ending in `@`: the bulk sender falls back to the Gmail host, the diagnostics page tries `smtp.`. */
  lemma TrailingAtExample()
    ensures AutoSettings("a@").host == GmailHost
    ensures ProbeEndpoint(ConnectionTest, "a@", "", 587).host == "smtp."
  {
    assert AfterLast("a@", '@') == "";
    assert SenderDomain("a@") == "";
    assert ProbeDomain("a@") == "";
    assert !Contains("", "gmail.com");
  }
}
