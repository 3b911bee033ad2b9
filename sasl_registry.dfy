/** The name-to-mechanism registries of QXmppSaslClient and QXmppSaslServer.
    `create` returns one of the mechanism classes or `nullptr`; here it
    returns the kind of mechanism, or None. */
module SaslRegistry {
  import opened Wrappers

  datatype ClientKind =
    | ClientPlain
    | ClientDigestMd5
    | ClientAnonymous
    | ClientScramSha1
    | ClientScramSha256
    | ClientFacebook
    | ClientWindowsLive
    | ClientGoogle

  datatype ServerKind = ServerPlain | ServerDigestMd5 | ServerAnonymous

  /** QXmppSaslClient::availableMechanisms, in order of preference. */
  function AvailableMechanisms(): seq<string> {
    ["SCRAM-SHA-256", "SCRAM-SHA-1", "DIGEST-MD5", "PLAIN", "ANONYMOUS",
     "X-FACEBOOK-PLATFORM", "X-MESSENGER-OAUTH2", "X-OAUTH2"]
  }

  /** What each client class answers to mechanism(). */
  function ClientMechanism(kind: ClientKind): string {
    match kind
    case ClientPlain => "PLAIN"
    case ClientDigestMd5 => "DIGEST-MD5"
    case ClientAnonymous => "ANONYMOUS"
    case ClientScramSha1 => "SCRAM-SHA-1"
    case ClientScramSha256 => "SCRAM-SHA-256"
    case ClientFacebook => "X-FACEBOOK-PLATFORM"
    case ClientWindowsLive => "X-MESSENGER-OAUTH2"
    case ClientGoogle => "X-OAUTH2"
  }

  /** What each server class answers to mechanism(). */
  function ServerMechanism(kind: ServerKind): string {
    match kind
    case ServerPlain => "PLAIN"
    case ServerDigestMd5 => "DIGEST-MD5"
    case ServerAnonymous => "ANONYMOUS"
  }

  /** QXmppSaslClient::create. */
  function CreateClient(mechanism: string): (r: Option<ClientKind>)
    ensures r.Some? ==> ClientMechanism(r.value) == mechanism
  {
    if mechanism == "PLAIN" then Some(ClientPlain)
    else if mechanism == "DIGEST-MD5" then Some(ClientDigestMd5)
    else if mechanism == "ANONYMOUS" then Some(ClientAnonymous)
    else if mechanism == "SCRAM-SHA-1" then Some(ClientScramSha1)
    else if mechanism == "SCRAM-SHA-256" then Some(ClientScramSha256)
    else if mechanism == "X-FACEBOOK-PLATFORM" then Some(ClientFacebook)
    else if mechanism == "X-MESSENGER-OAUTH2" then Some(ClientWindowsLive)
    else if mechanism == "X-OAUTH2" then Some(ClientGoogle)
    else None
  }

  /** QXmppSaslServer::create. */
  function CreateServer(mechanism: string): (r: Option<ServerKind>)
    ensures r.Some? ==> ServerMechanism(r.value) == mechanism
  {
    if mechanism == "PLAIN" then Some(ServerPlain)
    else if mechanism == "DIGEST-MD5" then Some(ServerDigestMd5)
    else if mechanism == "ANONYMOUS" then Some(ServerAnonymous)
    else None
  }

  /** Every advertised mechanism can be created, and the created mechanism
      reports the name it was created for; nothing else can be created. */
  lemma ClientRegistryAgrees(mechanism: string)
    ensures CreateClient(mechanism).Some? <==> mechanism in AvailableMechanisms()
    ensures CreateClient(mechanism).Some? ==> ClientMechanism(CreateClient(mechanism).value) == mechanism
  {
    var names := AvailableMechanisms();
    if mechanism in names {
      var i :| 0 <= i < |names| && names[i] == mechanism;
      assert i == 0 || i == 1 || i == 2 || i == 3 || i == 4 || i == 5 || i == 6 || i == 7;
    }
  }

  /** Every client kind is advertised, and its name creates that kind. */
  lemma EveryClientAdvertised(kind: ClientKind)
    ensures ClientMechanism(kind) in AvailableMechanisms()
    ensures CreateClient(ClientMechanism(kind)) == Some(kind)
  {
  }

  /** The server registry knows PLAIN, DIGEST-MD5 and ANONYMOUS only, so it
      knows a strict subset of the client mechanisms. */
  lemma ServerRegistry(mechanism: string)
    ensures CreateServer(mechanism).Some? <==> mechanism in ["PLAIN", "DIGEST-MD5", "ANONYMOUS"]
    ensures CreateServer(mechanism).Some? ==> CreateClient(mechanism).Some?
  {
  }
}
