/** What may be in a certificate: the checks of pkg/server/credvalidator. */
module CredValidator {
  import opened Types

  datatype KeyUsage = DigitalSignature | ContentCommitment | KeyEncipherment | DataEncipherment | KeyAgreement
                    | CertSign | CRLSign | EncipherOnly | DecipherOnly

  datatype ExtKeyUsage = ServerAuth | ClientAuth | OtherUsage(n: nat)

  datatype Name = Name(organizationalUnit: seq<string>, commonName: string, serialNumber: string, rest: string)

  /** The fields of a template. The time 0 is the zero time, which stands for "not set". */
  datatype Certificate = Certificate(
    serial: nat, subject: Name, uris: seq<string>, publicKey: string, subjectKeyId: string, authorityKeyId: string,
    basicConstraintsValid: bool, isCA: bool, keyUsage: set<KeyUsage>, extKeyUsage: seq<ExtKeyUsage>,
    notBefore: int, notAfter: int, dnsNames: seq<string>, policies: seq<string>, extraExtensions: seq<string>)

  datatype Problem = BadConstraints | NotCA | IsCA | MissingUsage | ExcessUsage
                   | MissingServerAuth | MissingClientAuth | MissingBoth | MissingURI | WrongURI | NotYetValid | Expired

  function CheckURISAN(cert: Certificate, isCA: bool, id: SpiffeID): Option<Problem> {
    if |cert.uris| == 0 then (if isCA then None else Some(MissingURI))
    else if |cert.uris| > 1 then Some(WrongURI)
    else if cert.uris[0] != id.ToString() then Some(WrongURI)
    else None
  }

  function CheckExpiration(cert: Certificate, now: int): Option<Problem> {
    if cert.notBefore != 0 && now < cert.notBefore then Some(NotYetValid)
    else if cert.notAfter != 0 && now > cert.notAfter then Some(Expired)
    else None
  }

  function ValidateX509CA(ca: Certificate, trustDomain: string, now: int): Option<Problem> {
    if !ca.basicConstraintsValid then Some(BadConstraints)
    else if !ca.isCA then Some(NotCA)
    else if CertSign !in ca.keyUsage then Some(MissingUsage)
    else if ca.keyUsage - {CertSign, CRLSign, DigitalSignature} != {} then Some(ExcessUsage)
    else if CheckURISAN(ca, true, SpiffeID(trustDomain, "")).Some? then CheckURISAN(ca, true, SpiffeID(trustDomain, ""))
    else CheckExpiration(ca, now)
  }

  function ValidateX509SVID(svid: Certificate, id: SpiffeID, now: int): Option<Problem> {
    var server, client := ServerAuth in svid.extKeyUsage, ClientAuth in svid.extKeyUsage;
    if !svid.basicConstraintsValid then Some(BadConstraints)
    else if svid.isCA then Some(IsCA)
    else if DigitalSignature !in svid.keyUsage then Some(MissingUsage)
    else if svid.keyUsage - {DigitalSignature, KeyEncipherment, KeyAgreement} != {} then Some(ExcessUsage)
    else if |svid.extKeyUsage| > 0 && !server && client then Some(MissingServerAuth)
    else if |svid.extKeyUsage| > 0 && server && !client then Some(MissingClientAuth)
    else if |svid.extKeyUsage| > 0 && !server && !client then Some(MissingBoth)
    else if CheckURISAN(svid, false, id).Some? then CheckURISAN(svid, false, id)
    else CheckExpiration(svid, now)
  }

  /** No date in the way: a date that is not set is none. */
  predicate Current(cert: Certificate, now: int) {
    (cert.notBefore == 0 || cert.notBefore <= now) && (cert.notAfter == 0 || now <= cert.notAfter)
  }

  /** The rules for a signing certificate (sections 4.2.1.3 and 4.2.1.9 of RFC 5280): a CA that may sign certificates,
      is used for nothing but signatures, and has either no URI or the trust domain's. */
  lemma CAPassesWhen(ca: Certificate, trustDomain: string, now: int)
    ensures ValidateX509CA(ca, trustDomain, now).None? <==>
      && ca.basicConstraintsValid && ca.isCA
      && {CertSign} <= ca.keyUsage <= {CertSign, CRLSign, DigitalSignature}
      && (ca.uris == [] || ca.uris == ["spiffe://" + trustDomain])
      && Current(ca, now)
  {
    assert SpiffeID(trustDomain, "").ToString() == "spiffe://" + trustDomain;
    var allowed := {CertSign, CRLSign, DigitalSignature};
    assert ca.keyUsage - allowed == {} <==> ca.keyUsage <= allowed by {
      assert forall u :: u in ca.keyUsage && u !in allowed ==> u in ca.keyUsage - allowed;
    }
  }

  /** A problem that is reported is there. */
  predicate Shows(cert: Certificate, ca: bool, id: SpiffeID, now: int, p: Problem) {
    match p
    case BadConstraints => !cert.basicConstraintsValid
    case NotCA => ca && !cert.isCA
    case IsCA => !ca && cert.isCA
    case MissingUsage => (if ca then CertSign else DigitalSignature) !in cert.keyUsage
    case ExcessUsage =>
      !(cert.keyUsage <= {DigitalSignature} + if ca then {CertSign, CRLSign} else {KeyEncipherment, KeyAgreement})
    case MissingServerAuth => ServerAuth !in cert.extKeyUsage && ClientAuth in cert.extKeyUsage
    case MissingClientAuth => ServerAuth in cert.extKeyUsage && ClientAuth !in cert.extKeyUsage
    case MissingBoth => ServerAuth !in cert.extKeyUsage && ClientAuth !in cert.extKeyUsage
    case MissingURI => cert.uris == []
    case WrongURI => cert.uris != [] && cert.uris != ["spiffe://" + id.trustDomain + id.path]
    case NotYetValid => cert.notBefore != 0 && now < cert.notBefore
    case Expired => cert.notAfter != 0 && now > cert.notAfter
  }

  lemma ProblemIsThere(cert: Certificate, trustDomain: string, id: SpiffeID, now: int)
    ensures var p := ValidateX509CA(cert, trustDomain, now);
            p.Some? ==> Shows(cert, true, SpiffeID(trustDomain, ""), now, p.value)
    ensures var p := ValidateX509SVID(cert, id, now); p.Some? ==> Shows(cert, false, id, now, p.value)
  {
  }

  /** The rules for an SVID: not a CA, signs, is used for nothing but signatures and key exchange, has both
      authentication usages or no extended usage at all, and its one URI is the ID. */
  lemma SVIDPassesWhen(svid: Certificate, id: SpiffeID, now: int)
    ensures ValidateX509SVID(svid, id, now).None? <==>
      && svid.basicConstraintsValid && !svid.isCA
      && {DigitalSignature} <= svid.keyUsage <= {DigitalSignature, KeyEncipherment, KeyAgreement}
      && (svid.extKeyUsage == [] || (ServerAuth in svid.extKeyUsage && ClientAuth in svid.extKeyUsage))
      && svid.uris == ["spiffe://" + id.trustDomain + id.path]
      && Current(svid, now)
  {
    var allowed := {DigitalSignature, KeyEncipherment, KeyAgreement};
    assert svid.keyUsage - allowed == {} <==> svid.keyUsage <= allowed by {
      assert forall u :: u in svid.keyUsage && u !in allowed ==> u in svid.keyUsage - allowed;
    }
  }
}

/** How certificates are built: the templates of pkg/server/credtemplate. */
module CredTemplate {
  import opened Types
  import opened CredValidator

  const HOUR := 3600 * SECOND
  const NOT_BEFORE_CUSHION := 10 * SECOND

  datatype Config = Config(
    trustDomain: string, x509CASubject: Name, x509CATTL: int, x509SVIDSubject: Name, x509SVIDTTL: int,
        agentSVIDTTL: int)

  const EMPTY_NAME := Name([], "", "", "")

  /** What NewBuilder makes of a configuration; None for an empty trust domain. */
  function NewBuilder(c: Config): Option<Config> {
    if c.trustDomain == "" then None
    else
      var svidTTL := if c.x509SVIDTTL == 0 then HOUR else c.x509SVIDTTL;
      Some(c.(
        x509CASubject := if c.x509CASubject == EMPTY_NAME then Name([], "", "", "C=US,O=SPIFFE") else c.x509CASubject,
        x509CATTL := if c.x509CATTL == 0 then 24 * HOUR else c.x509CATTL,
        x509SVIDSubject := if c.x509SVIDSubject == EMPTY_NAME then Name([], "", "", "C=US,O=SPIRE")
            else c.x509SVIDSubject,
        x509SVIDTTL := svidTTL,
        agentSVIDTTL := if c.agentSVIDTTL == 0 then svidTTL else c.agentSVIDTTL))
  }

  function Decimal(n: nat): string {
    if n < 10 then ["0123456789"[n]] else Decimal(n / 10) + ["0123456789"[n % 10]]
  }

  predicate Digits(s: string) {
    s != "" && forall i :: 0 <= i < |s| ==> '0' <= s[i] <= '9'
  }

  /** The number that digits stand for. */
  function ValueOf(s: string): nat
    requires Digits(s)
  {
    var last := (s[|s| - 1] as int) - ('0' as int);
    if |s| == 1 then last else 10 * ValueOf(s[..|s| - 1]) + last
  }

  /** Printing a number loses nothing and adds no leading zero. */
  lemma {:induction false} DecimalRoundTrip(n: nat)
    ensures Digits(Decimal(n)) && ValueOf(Decimal(n)) == n && (n > 0 ==> Decimal(n)[0] != '0')
  {
    DigitIs(n % 10);
    if n >= 10 {
      DecimalRoundTrip(n / 10);
      assert Decimal(n)[..|Decimal(n)| - 1] == Decimal(n / 10);
    }
  }

  lemma DigitIs(d: nat)
    requires d < 10
    ensures '0' <= "0123456789"[d] <= '9' && ("0123456789"[d] as int) - ('0' as int) == d
  {
  }

  /** What NewBuilder fills in: a day for CAs, an hour for SVIDs, and for agents what SVIDs have. */
  lemma BuilderDefaults(c: Config)
    ensures NewBuilder(c).None? <==> c.trustDomain == ""
    ensures NewBuilder(c).Some? ==>
      var b := NewBuilder(c).value;
      && b.trustDomain == c.trustDomain
      && b.x509CATTL == (if c.x509CATTL != 0 then c.x509CATTL else 86_400_000_000_000)
      && b.x509SVIDTTL == (if c.x509SVIDTTL != 0 then c.x509SVIDTTL else 3_600_000_000_000)
      && b.agentSVIDTTL == (if c.agentSVIDTTL != 0 then c.agentSVIDTTL else b.x509SVIDTTL)
      && (c.x509CASubject != EMPTY_NAME ==> b.x509CASubject == c.x509CASubject)
      && (c.x509SVIDSubject != EMPTY_NAME ==> b.x509SVIDSubject == c.x509SVIDSubject)
  {
  }

  /** What a build takes from outside: the clock, a serial number or the failure to get one, and the key with its ID if
      it has one. */
  datatype Inputs = Inputs(now: int, serial: Option<nat>, publicKey: string, keyId: Option<string>)

  /** A window that starts a little before now and lasts for `ttl`, but not beyond a cap that is set. */
  function CappedLifetime(now: int, ttl: int, cap: int): (window: (int, int)) {
    var notAfter := now + ttl;
    (now - NOT_BEFORE_CUSHION, if cap != 0 && notAfter > cap then cap else notAfter)
  }

  function ParentChainExpiration(chain: seq<Certificate>): int {
    if |chain| > 0 && chain[0].notAfter != 0 then chain[0].notAfter else 0
  }

  function BaseTemplate(id: SpiffeID, chain: seq<Certificate>, inputs: Inputs): Option<Certificate> {
    if inputs.serial.None? || inputs.keyId.None? then None
    else Some(Certificate(inputs.serial.value, EMPTY_NAME, [id.ToString()], inputs.publicKey, inputs.keyId.value,
                          if |chain| > 0 then chain[0].subjectKeyId else "", true, false, {}, [], 0, 0, [], [], []))
  }

  function EffectiveTTL(ttl: int, configured: int): int {
    if ttl <= 0 then configured else ttl
  }

  function X509CATemplate(c: Config, chain: seq<Certificate>, ttl: int, inputs: Inputs): Option<Certificate> {
    var base := BaseTemplate(SpiffeID(c.trustDomain, ""), chain, inputs);
    if base.None? then None
    else
      var window := CappedLifetime(inputs.now, EffectiveTTL(ttl, c.x509CATTL), ParentChainExpiration(chain));
      var subject := c.x509CASubject;
      Some(base.value.(
        subject := if subject.serialNumber == "" then subject.(serialNumber := Decimal(base.value.serial)) else subject,
        notBefore := window.0, notAfter := window.1, keyUsage := {CertSign, CRLSign}, isCA := true))
  }

  function X509SVIDTemplate(c: Config, id: SpiffeID, chain: seq<Certificate>, subject: Name, ttl: int,
                            inputs: Inputs): Option<Certificate> {
    if |chain| == 0 || id == SpiffeID("", "") || id.trustDomain != c.trustDomain || id.path == "" then None
    else
      var base := BaseTemplate(id, chain, inputs);
      if base.None? then None
      else
        var window := CappedLifetime(inputs.now, EffectiveTTL(ttl, c.x509SVIDTTL), ParentChainExpiration(chain));
        Some(base.value.(
          subject := if subject == EMPTY_NAME then c.x509SVIDSubject
              else subject, notBefore := window.0, notAfter := window.1,
          keyUsage := {KeyEncipherment, KeyAgreement, DigitalSignature}, extKeyUsage := [ServerAuth, ClientAuth]))
  }

  /** What a credential composer is shown and gives back; None is an error. */
  datatype CAAttributes = CAAttributes(subject: Name, policies: seq<string>, extraExtensions: seq<string>)
  datatype SVIDAttributes = SVIDAttributes(subject: Name, dnsNames: seq<string>, extraExtensions: seq<string>)
  type CAComposer = CAAttributes -> Option<CAAttributes>
  type SVIDComposer = SVIDAttributes -> Option<SVIDAttributes>

  /** The composers one after the other. */
  function Composed<A>(composers: seq<A -> Option<A>>, a: A): Option<A> {
    if composers == [] then Some(a)
    else if composers[0](a).None? then None
    else Composed(composers[1..], composers[0](a).value)
  }

  function CAFrom(t: Certificate): CAAttributes {
    CAAttributes(t.subject, t.policies, t.extraExtensions)
  }

  function SVIDFrom(t: Certificate): SVIDAttributes {
    SVIDAttributes(t.subject, t.dnsNames, t.extraExtensions)
  }

  /** Each composer is given what those before it left, and the first error ends it. */
  lemma {:induction false} ComposedInOrder<A>(composers: seq<A -> Option<A>>, last: A -> Option<A>, a: A)
    ensures Composed(composers + [last], a) ==
            var sofar := Composed(composers, a); if sofar.None? then None else last(sofar.value)
    decreases |composers|
  {
    if composers == [] {
      assert composers + [last] == [last] && [last][1..] == [];
    } else {
      assert (composers + [last])[0] == composers[0] && (composers + [last])[1..] == composers[1..] + [last];
      if composers[0](a).Some? {
        ComposedInOrder(composers[1..], last, composers[0](a).value);
      }
    }
  }

  /** A subject without a serial number gets that of the certificate. */
  function Serialed(subject: Name, serial: nat): Name {
    if subject.serialNumber == "" then subject.(serialNumber := Decimal(serial)) else subject
  }

  /** `r` is `t` after the composers: only the attributes a composer is given can have changed. */
  predicate CAComposedFrom(t: Certificate, composers: seq<CAComposer>, r: Option<Certificate>) {
    match Composed(composers, CAFrom(t))
    case None => r.None?
    case Some(a) => r == Some(t.(subject := a.subject, policies := a.policies, extraExtensions := a.extraExtensions))
  }

  predicate SVIDComposedFrom(t: Certificate, composers: seq<SVIDComposer>, r: Option<Certificate>) {
    match Composed(composers, SVIDFrom(t))
    case None => r.None?
    case Some(a) => r == Some(t.(subject := a.subject, dnsNames := a.dnsNames, extraExtensions := a.extraExtensions))
  }

  method ComposeX509CA(t: Certificate, composers: seq<CAComposer>) returns (r: Option<Certificate>)
    ensures CAComposedFrom(t, composers, r)
  {
    var tmpl := t;
    for i := 0 to |composers|
      invariant Composed(composers, CAFrom(t)) == Composed(composers[i..], CAFrom(tmpl))
      invariant tmpl == t.(subject := tmpl.subject, policies := tmpl.policies, extraExtensions := tmpl.extraExtensions)
    {
      var attributes := composers[i](CAFrom(tmpl));
      assert composers[i..][0] == composers[i] && composers[i..][1..] == composers[i + 1..];
      if attributes.None? {
        return None;
      }
      var a := attributes.value;
      tmpl := tmpl.(subject := a.subject, policies := a.policies, extraExtensions := a.extraExtensions);
      assert CAFrom(tmpl) == a;
    }
    r := Some(tmpl);
  }

  method ComposeX509SVID(t: Certificate, composers: seq<SVIDComposer>) returns (r: Option<Certificate>)
    ensures SVIDComposedFrom(t, composers, r)
  {
    var tmpl := t;
    for i := 0 to |composers|
      invariant Composed(composers, SVIDFrom(t)) == Composed(composers[i..], SVIDFrom(tmpl))
      invariant tmpl == t.(subject := tmpl.subject, dnsNames := tmpl.dnsNames, extraExtensions := tmpl.extraExtensions)
    {
      var attributes := composers[i](SVIDFrom(tmpl));
      assert composers[i..][0] == composers[i] && composers[i..][1..] == composers[i + 1..];
      if attributes.None? {
        return None;
      }
      var a := attributes.value;
      tmpl := tmpl.(subject := a.subject, dnsNames := a.dnsNames, extraExtensions := a.extraExtensions);
      assert SVIDFrom(tmpl) == a;
    }
    r := Some(tmpl);
  }

  /** The window in numbers: from ten seconds before now until the TTL from now, or the configured one if none is asked
      for, but not beyond the end of the parent if that is set. */
  predicate EndsAt(t: Certificate, now: int, ttl: int, configured: int, chain: seq<Certificate>) {
    var end := if ttl > 0 then now + ttl else now + configured;
    && t.notBefore == now - 10_000_000_000
    && t.notAfter == if |chain| > 0 && chain[0].notAfter != 0 && chain[0].notAfter < end then chain[0].notAfter else end
  }

  /** Nothing stands in the way of an SVID with this ID. */
  predicate Allowed(c: Config, id: SpiffeID, chain: seq<Certificate>, inputs: Inputs) {
    |chain| > 0 && id.trustDomain == c.trustDomain && id.path != "" && inputs.serial.Some? && inputs.keyId.Some?
  }

  /** `r` is a CA certificate for this server with the window its TTL and parent allow, or an error. */
  predicate BuiltCA(c: Config, chain: seq<Certificate>, ttl: int, inputs: Inputs, r: Option<Certificate>) {
    r.Some? ==>
      var t := r.value;
      && t.uris == ["spiffe://" + c.trustDomain]
      && t.keyUsage == {CertSign, CRLSign} && t.extKeyUsage == [] && t.isCA && t.basicConstraintsValid
      && EndsAt(t, inputs.now, ttl, c.x509CATTL, chain)
      && inputs.serial == Some(t.serial) && inputs.keyId == Some(t.subjectKeyId) && t.publicKey == inputs.publicKey
      && t.authorityKeyId == if |chain| > 0 then chain[0].subjectKeyId else ""
  }

  predicate BuiltSVID(c: Config, id: SpiffeID, chain: seq<Certificate>, ttl: int, inputs: Inputs,
                      r: Option<Certificate>) {
    r.Some? ==>
      var t := r.value;
      && Allowed(c, id, chain, inputs)
      && t.uris == ["spiffe://" + id.trustDomain + id.path]
      && t.keyUsage == {KeyEncipherment, KeyAgreement, DigitalSignature} && t.extKeyUsage == [ServerAuth, ClientAuth]
      && !t.isCA && t.basicConstraintsValid
      && EndsAt(t, inputs.now, ttl, c.x509SVIDTTL, chain)
      && inputs.serial == Some(t.serial) && inputs.keyId == Some(t.subjectKeyId) && t.publicKey == inputs.publicKey
      && t.authorityKeyId == chain[0].subjectKeyId && t.policies == []
  }

  method BuildSelfSignedX509CATemplate(c: Config, inputs: Inputs, composers: seq<CAComposer>)
      returns (r: Option<Certificate>)
    ensures BuiltCA(c, [], 0, inputs, r)
    ensures composers == [] ==> (r.Some? <==> inputs.serial.Some? && inputs.keyId.Some?)
    ensures composers == [] && r.Some? ==>
              CAFrom(r.value) == CAAttributes(Serialed(c.x509CASubject, r.value.serial), [], [])
    ensures var tmpl := X509CATemplate(c, [], 0, inputs);
            if tmpl.None? then r.None? else CAComposedFrom(tmpl.value, composers, r)
  {
    assert SpiffeID(c.trustDomain, "").ToString() == "spiffe://" + c.trustDomain;
    var tmpl := X509CATemplate(c, [], 0, inputs);
    if tmpl.None? {
      return None;
    }
    r := ComposeX509CA(tmpl.value, composers);
  }

  /** The subject names the parent's, marked with the depth of the chain. */
  function DownstreamX509CATemplate(c: Config, chain: seq<Certificate>, ttl: int, inputs: Inputs): Option<Certificate> {
    var tmpl := X509CATemplate(c, chain, ttl, inputs);
    if |chain| == 0 || tmpl.None? then None
    else Some(tmpl.value.(subject := chain[0].subject.(organizationalUnit := ["DOWNSTREAM-" + Decimal(|chain|)])))
  }

  method BuildDownstreamX509CATemplate(c: Config, chain: seq<Certificate>, ttl: int, inputs: Inputs,
                                       composers: seq<CAComposer>)
    returns (r: Option<Certificate>)
    ensures BuiltCA(c, chain, ttl, inputs, r) && (|chain| == 0 ==> r.None?)
    ensures composers == [] ==> (r.Some? <==> |chain| > 0 && inputs.serial.Some? && inputs.keyId.Some?)
    ensures composers == [] && r.Some? ==>
              CAFrom(r.value) ==
              CAAttributes(chain[0].subject.(organizationalUnit := ["DOWNSTREAM-" + Decimal(|chain|)]), [], [])
    ensures var tmpl := DownstreamX509CATemplate(c, chain, ttl, inputs);
            if tmpl.None? then r.None? else CAComposedFrom(tmpl.value, composers, r)
  {
    if |chain| == 0 {
      return None;
    }
    assert SpiffeID(c.trustDomain, "").ToString() == "spiffe://" + c.trustDomain;
    var base := X509CATemplate(c, chain, ttl, inputs);
    if base.None? {
      return None;
    }
    var tmpl := base.value.(subject := chain[0].subject);
    tmpl := tmpl.(subject := tmpl.subject.(organizationalUnit := ["DOWNSTREAM-" + Decimal(|chain|)]));
    r := ComposeX509CA(tmpl, composers);
  }

  method BuildServerX509SVIDTemplate(c: Config, chain: seq<Certificate>, inputs: Inputs, composers: seq<SVIDComposer>)
      returns (r: Option<Certificate>)
    ensures BuiltSVID(c, SpiffeID(c.trustDomain, "/spire/server"), chain, 0, inputs, r)
    ensures composers == [] ==> (r.Some? <==> Allowed(c, SpiffeID(c.trustDomain, "/spire/server"), chain, inputs))
    ensures composers == [] && r.Some? ==> SVIDFrom(r.value) == SVIDAttributes(c.x509SVIDSubject, [], [])
    ensures var tmpl := X509SVIDTemplate(c, SpiffeID(c.trustDomain, SERVER_ID_PATH), chain, EMPTY_NAME, 0, inputs);
            if tmpl.None? then r.None? else SVIDComposedFrom(tmpl.value, composers, r)
  {
    var tmpl := X509SVIDTemplate(c, SpiffeID(c.trustDomain, SERVER_ID_PATH), chain, EMPTY_NAME, 0, inputs);
    if tmpl.None? {
      return None;
    }
    r := ComposeX509SVID(tmpl.value, composers);
  }

  method BuildAgentX509SVIDTemplate(c: Config, id: SpiffeID, chain: seq<Certificate>, inputs: Inputs,
                                    composers: seq<SVIDComposer>)
    returns (r: Option<Certificate>)
    ensures BuiltSVID(c, id, chain, c.agentSVIDTTL, inputs, r)
    ensures composers == [] ==> (r.Some? <==> Allowed(c, id, chain, inputs))
    ensures composers == [] && r.Some? ==> SVIDFrom(r.value) == SVIDAttributes(c.x509SVIDSubject, [], [])
    ensures var tmpl := X509SVIDTemplate(c, id, chain, EMPTY_NAME, c.agentSVIDTTL, inputs);
            if tmpl.None? then r.None? else SVIDComposedFrom(tmpl.value, composers, r)
  {
    var tmpl := X509SVIDTemplate(c, id, chain, EMPTY_NAME, c.agentSVIDTTL, inputs);
    if tmpl.None? {
      return None;
    }
    r := ComposeX509SVID(tmpl.value, composers);
  }

  /** The first DNS name is also the common name. */
  function WorkloadX509SVIDTemplate(c: Config, id: SpiffeID, chain: seq<Certificate>, subject: Name,
                                    dnsNames: seq<string>, ttl: int, inputs: Inputs): Option<Certificate> {
    var tmpl := X509SVIDTemplate(c, id, chain, if subject == EMPTY_NAME then c.x509SVIDSubject
        else subject, ttl, inputs);
    if tmpl.None? || |dnsNames| == 0 then tmpl
    else Some(tmpl.value.(subject := tmpl.value.subject.(commonName := dnsNames[0]), dnsNames := dnsNames))
  }

  method BuildWorkloadX509SVIDTemplate(c: Config, id: SpiffeID, chain: seq<Certificate>, subject: Name,
                                       dnsNames: seq<string>, ttl: int, inputs: Inputs, composers: seq<SVIDComposer>)
    returns (r: Option<Certificate>)
    ensures BuiltSVID(c, id, chain, ttl, inputs, r)
    ensures composers == [] ==> (r.Some? <==> Allowed(c, id, chain, inputs))
    ensures composers == [] && r.Some? ==>
              var name := if subject == EMPTY_NAME then c.x509SVIDSubject else subject;
              SVIDFrom(r.value) ==
              SVIDAttributes(if dnsNames == [] then name else name.(commonName := dnsNames[0]), dnsNames, [])
    ensures var tmpl := WorkloadX509SVIDTemplate(c, id, chain, subject, dnsNames, ttl, inputs);
            if tmpl.None? then r.None? else SVIDComposedFrom(tmpl.value, composers, r)
  {
    var name := c.x509SVIDSubject;
    if subject != EMPTY_NAME {
      name := subject;
    }
    var base := X509SVIDTemplate(c, id, chain, name, ttl, inputs);
    if base.None? {
      return None;
    }
    var tmpl := base.value;
    if |dnsNames| > 0 {
      tmpl := tmpl.(subject := tmpl.subject.(commonName := dnsNames[0]));
      tmpl := tmpl.(dnsNames := dnsNames);
    }
    r := ComposeX509SVID(tmpl, composers);
  }

  /** The window holds `now`: a TTL that is not negative under a cap that has not passed. A certificate that would end
      at the zero time never expires. */
  predicate Lasts(now: int, ttl: int, cap: int) {
    (ttl >= 0 && (cap == 0 || cap >= now)) || (now + ttl == 0 && cap >= 0)
  }

  /** Whatever the composers do, a CA template passes the validator when it is built if and only if its window holds
      now. */
  lemma CAPassesExactly(c: Config, chain: seq<Certificate>, ttl: int, inputs: Inputs, t: Certificate)
    requires inputs.now > 0 && BuiltCA(c, chain, ttl, inputs, Some(t))
    ensures ValidateX509CA(t, c.trustDomain, inputs.now).None? <==>
            Lasts(inputs.now, EffectiveTTL(ttl, c.x509CATTL), ParentChainExpiration(chain))
  {
    assert t.keyUsage - {CertSign, CRLSign, DigitalSignature} == {};
    assert SpiffeID(c.trustDomain, "").ToString() == "spiffe://" + c.trustDomain;
  }

  lemma SVIDPassesExactly(c: Config, id: SpiffeID, chain: seq<Certificate>, ttl: int, inputs: Inputs, t: Certificate)
    requires inputs.now > 0 && BuiltSVID(c, id, chain, ttl, inputs, Some(t))
    ensures ValidateX509SVID(t, id, inputs.now).None? <==>
            Lasts(inputs.now, EffectiveTTL(ttl, c.x509SVIDTTL), ParentChainExpiration(chain))
  {
    assert t.keyUsage - {DigitalSignature, KeyEncipherment, KeyAgreement} == {};
    assert t.extKeyUsage[0] == ServerAuth && t.extKeyUsage[1] == ClientAuth;
  }

  /** With the TTLs NewBuilder leaves, unless a negative one was configured, an unexpired parent is all it takes. */
  lemma UnexpiredParentSuffices(c0: Config, c: Config, chain: seq<Certificate>, ttl: int, now: int)
    requires NewBuilder(c0) == Some(c) && c0.x509CATTL >= 0 && c0.x509SVIDTTL >= 0 && c0.agentSVIDTTL >= 0
    requires |chain| > 0 ==> chain[0].notAfter == 0 || chain[0].notAfter >= now
    ensures EffectiveTTL(ttl, c.x509CATTL) > 0 && EffectiveTTL(ttl, c.x509SVIDTTL) > 0 && c.agentSVIDTTL > 0
    ensures Lasts(now, EffectiveTTL(ttl, c.x509CATTL), ParentChainExpiration(chain))
    ensures Lasts(now, EffectiveTTL(ttl, c.x509SVIDTTL), ParentChainExpiration(chain))
  {
  }

  /** The window of `inner` lies in that of `outer`; an end that is not set is no end. */
  predicate Within(inner: Certificate, outer: Certificate) {
    outer.notBefore <= inner.notBefore &&
        (outer.notAfter == 0 || (inner.notAfter != 0 && inner.notAfter <= outer.notAfter))
  }

  /** One downstream CA: built when, by which server and with which TTL. */
  datatype Issue = Issue(config: Config, ttl: int, inputs: Inputs)

  predicate IssuedUnder(issue: Issue, chain: seq<Certificate>, t: Certificate) {
    EffectiveTTL(issue.ttl, issue.config.x509CATTL) > 0 &&
        BuiltCA(issue.config, chain, issue.ttl, issue.inputs, Some(t))
  }

  /** A chain of CAs, the youngest first and a root last: each was built downstream of those after it, at a time that is
      not before theirs, by a server and with a TTL and composers of its own. */
  predicate Downstream(chain: seq<Certificate>, issues: seq<Issue>)
    decreases |chain|
  {
    |chain| == |issues| + 1 &&
    (issues != [] ==>
       && IssuedUnder(issues[0], chain[1..], chain[0])
       && 0 < issues[0].inputs.now && StartedBy(chain[1..], issues[1..], issues[0].inputs.now)
       && Downstream(chain[1..], issues[1..]))
  }

  /** The youngest was built by `now`. */
  predicate StartedBy(chain: seq<Certificate>, issues: seq<Issue>, now: int)
    requires |chain| > 0
  {
    if issues == [] then chain[0].notBefore <= now - NOT_BEFORE_CUSHION else issues[0].inputs.now <= now
  }

  /** At any depth, and with a clock that does not go back, every window lies inside those of all its ancestors. */
  lemma {:induction false} WindowsNest(chain: seq<Certificate>, issues: seq<Issue>)
    requires Downstream(chain, issues)
    ensures forall i, j :: 0 <= i < j < |chain| ==> Within(chain[i], chain[j])
    decreases |chain|
  {
    if issues != [] {
      WindowsNest(chain[1..], issues[1..]);
      assert Within(chain[0], chain[1]);
      forall i, j | 0 <= i < j < |chain| ensures Within(chain[i], chain[j]) {
        assert chain[j] == chain[1..][j - 1] && chain[1] == chain[1..][0];
        assert i > 0 ==> chain[i] == chain[1..][i - 1];
      }
    }
  }

  /** And so does the window of an SVID issued at its end. */
  lemma SVIDNests(chain: seq<Certificate>, issues: seq<Issue>, c: Config, id: SpiffeID, ttl: int, inputs: Inputs,
                  svid: Certificate)
    requires Downstream(chain, issues) && 0 < inputs.now && StartedBy(chain, issues, inputs.now)
    requires EffectiveTTL(ttl, c.x509SVIDTTL) > 0 && BuiltSVID(c, id, chain, ttl, inputs, Some(svid))
    ensures forall j :: 0 <= j < |chain| ==> Within(svid, chain[j])
  {
    WindowsNest(chain, issues);
    assert Within(svid, chain[0]);
    forall j | 0 < j < |chain| ensures Within(svid, chain[j]) {
      assert Within(chain[0], chain[j]);
    }
  }

  function NonEmpty(ss: seq<string>): seq<string> {
    if ss == [] then [] else NonEmpty(ss[..|ss| - 1]) + if ss[|ss| - 1] != "" then [ss[|ss| - 1]] else []
  }

  /** dropEmptyValues: the non-empty strings, in order, moved to the front of the array. */
  method DropEmptyValues(ss: array<string>) returns (next: nat)
    modifies ss
    ensures next <= ss.Length && ss[..next] == NonEmpty(old(ss[..]))
  {
    next := 0;
    for i := 0 to ss.Length
      invariant next <= i && ss[..next] == NonEmpty(old(ss[..])[..i])
      invariant forall k :: i <= k < ss.Length ==> ss[k] == old(ss[..])[k]
    {
      var s := ss[i];
      assert s == old(ss[..])[i] && old(ss[..])[..i + 1][..i] == old(ss[..])[..i];
      if s != "" {
        ss[next] := s;
        next := next + 1;
      }
    }
    assert old(ss[..])[..ss.Length] == old(ss[..]);
  }

  lemma {:induction false} NonEmptyKeeps(ss: seq<string>, s: string)
    ensures multiset(NonEmpty(ss))[s] == if s == "" then 0 else multiset(ss)[s]
  {
    if ss != [] {
      var a, x := ss[..|ss| - 1], ss[|ss| - 1];
      NonEmptyKeeps(a, s);
      assert ss == a + [x];
    }
  }

  /** The order is kept. */
  lemma {:induction false} NonEmptyInOrder(a: seq<string>, b: seq<string>)
    ensures NonEmpty(a + b) == NonEmpty(a) + NonEmpty(b)
    decreases |b|
  {
    if b == [] {
      assert a + b == a;
    } else {
      var n := |b| - 1;
      assert (a + b)[..|a + b| - 1] == a + b[..n];
      NonEmptyInOrder(a, b[..n]);
    }
  }
}
