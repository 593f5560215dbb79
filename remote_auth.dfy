/**
 * addRemoteAuth of ExhibitorServletContextListener: parses the remote client
 * authorization spec `type:base64(user:pass)` and installs one HTTP
 * authentication filter on the Exhibitor arguments builder.
 */
module RemoteAuth {
  import opened Wrappers
  import opened JavaStrings

  /** The Jersey client filters the listener can install. */
  datatype ClientFilter =
    | HttpBasicAuthFilter(username: string, password: string)
    | HttpDigestAuthFilter(username: string, password: string)

  datatype RemoteConnectionConfiguration = RemoteConnectionConfiguration(filters: seq<ClientFilter>)

  /**
   * ExhibitorArguments.Builder: `settings` stands for every option the
   * creator put on it; only the remote connection configuration is touched here.
   */
  datatype ArgumentsBuilder = ArgumentsBuilder(
    settings: map<string, string>,
    remoteConnection: Option<RemoteConnectionConfiguration>)

  /** The exceptions addRemoteAuth can throw. */
  datatype AuthError =
    | BadlyFormedAuthorization(spec: string)   // Preconditions.checkArgument: IllegalArgumentException
    | MissingCredentialField(index: nat)       // ArrayIndexOutOfBoundsException on authParts[index]

  /** The builder with its remote connection configuration replaced by one filter. */
  function WithFilter(builder: ArgumentsBuilder, filter: ClientFilter): ArgumentsBuilder
  {
    builder.(remoteConnection := Some(RemoteConnectionConfiguration([filter])))
  }

  /**
   * The (username, password) pair in a decoded token: the trimmed first and
   * second ':'-fields; fields past the second are ignored, and a token with
   * fewer than two fields throws on the missing index: authParts[1] for one
   * field, authParts[0] when the split leaves nothing (a token of colons only).
   */
  function Credentials(auth: string): (r: Result<(string, string), AuthError>)
    ensures r.Success? <==> |Split(auth)| >= 2
    ensures r.Success? ==> r.value == (Trim(Split(auth)[0]), Trim(Split(auth)[1]))
    ensures r.Failure? ==> r.error == MissingCredentialField(|Split(auth)|)
  {
    var authParts := Split(auth);
    if |authParts| < 1 then Failure(MissingCredentialField(0))
    else if |authParts| < 2 then Failure(MissingCredentialField(1))
    else Success((Trim(authParts[0]), Trim(authParts[1])))
  }

  /**
   * addRemoteAuth: `remoteAuthSpec` is the (nullable) spec and `decode` the
   * Base64 decoding of a token into text.
   */
  function AddRemoteAuth(builder: ArgumentsBuilder, remoteAuthSpec: Option<string>, decode: string -> string)
    : (r: Result<ArgumentsBuilder, AuthError>)
    // a null or empty spec leaves the builder as it is
    ensures remoteAuthSpec == None || remoteAuthSpec == Some("") ==> r == Success(builder)
    // a spec that does not split into two parts is rejected before anything else
    ensures remoteAuthSpec.Some? && remoteAuthSpec.value != "" && |Split(remoteAuthSpec.value)| != 2 ==>
      r == Failure(BadlyFormedAuthorization(remoteAuthSpec.value))
    // never a partial update: the builder as it was, or with exactly one filter
    ensures r.Success? ==>
      r.value == builder ||
      (r.value == builder.(remoteConnection := r.value.remoteConnection) &&
       r.value.remoteConnection.Some? && |r.value.remoteConnection.value.filters| == 1)
  {
    match remoteAuthSpec
    case None => Success(builder)
    case Some(spec) =>
      if |spec| == 0 then Success(builder)
      else
        var parts := Split(spec);
        if |parts| != 2 then Failure(BadlyFormedAuthorization(spec))
        else
          var authType := Trim(parts[0]);
          var auth := decode(Trim(parts[1]));
          match Credentials(auth)
          case Failure(e) => Failure(e)
          case Success((username, password)) =>
            if authType == "basic" then Success(WithFilter(builder, HttpBasicAuthFilter(username, password)))
            else if authType == "digest" then Success(WithFilter(builder, HttpDigestAuthFilter(username, password)))
            else Success(builder)
  }

  /** The filter a recognised type installs, if any. */
  function FilterFor(authType: string, username: string, password: string): Option<ClientFilter>
  {
    if authType == "basic" then Some(HttpBasicAuthFilter(username, password))
    else if authType == "digest" then Some(HttpDigestAuthFilter(username, password))
    else None
  }

  /**
   * The whole grammar of a well-formed spec: the trimmed type before the
   * colon, the credentials of the decoded token after it, and the filter that
   * type selects (none for an unknown type).
   */
  lemma AddRemoteAuthWellFormed(builder: ArgumentsBuilder, spec: string, decode: string -> string)
    requires |Split(spec)| == 2
    ensures var parts := Split(spec);
      var auth := decode(Trim(parts[1]));
      AddRemoteAuth(builder, Some(spec), decode) ==
        if |Split(auth)| < 2 then Failure(MissingCredentialField(|Split(auth)|))
        else
          match FilterFor(Trim(parts[0]), Trim(Split(auth)[0]), Trim(Split(auth)[1]))
          case None => Success(builder)
          case Some(f) => Success(WithFilter(builder, f))
  {
    assert spec != "";
  }

  /**
   * Round trip: a spec built as type ":" token, where the token decodes to
   * user ":" password, installs the filter the type selects with exactly
   * those credentials (none for an unknown type).
   */
  lemma {:induction false} AddRemoteAuthRoundTrip(builder: ArgumentsBuilder, authType: string, token: string,
                                                   username: string, password: string, decode: string -> string)
    requires ':' !in authType && IsTrimmed(authType)
    requires ':' !in token && token != "" && IsTrimmed(token)
    requires ':' !in username && IsTrimmed(username)
    requires ':' !in password && password != "" && IsTrimmed(password)
    requires decode(token) == username + ":" + password
    ensures AddRemoteAuth(builder, Some(authType + ":" + token), decode) ==
      match FilterFor(authType, username, password)
      case None => Success(builder)
      case Some(f) => Success(WithFilter(builder, f))
  {
    var spec := authType + ":" + token;
    SplitOfPair(authType, token, 0);
    assert spec + Colons(0) == spec;
    SplitOfPair(username, password, 0);
    assert username + ":" + password + Colons(0) == username + ":" + password;
    TrimOfTrimmed(token);
    TrimOfTrimmed(username);
    TrimOfTrimmed(password);
    TrimOfTrimmed(authType);
    AddRemoteAuthWellFormed(builder, spec, decode);
  }

  /** Credential fields after the second are ignored. */
  lemma ExtraCredentialFieldsIgnored(username: string, password: string, rest: string)
    requires ':' !in username && ':' !in password
    requires password != "" || exists i :: 0 <= i < |rest| && rest[i] != ':'
    ensures Credentials(username + ":" + password + ":" + rest) ==
      Success((Trim(username), Trim(password)))
  {
    SplitExtraFields(username, password, rest);
    var parts := Split(username + ":" + password + ":" + rest);
    assert parts[0] == parts[..2][0] && parts[1] == parts[..2][1];
  }

  /** A decoded token without ':' has one field, so authParts[1] throws. */
  lemma SingleCredentialFieldThrows(builder: ArgumentsBuilder, authType: string, token: string,
                                    decode: string -> string)
    requires ':' !in authType && ':' !in token && token != ""
    requires ':' !in decode(Trim(token))
    ensures AddRemoteAuth(builder, Some(authType + ":" + token), decode) == Failure(MissingCredentialField(1))
  {
    SplitOfPair(authType, token, 0);
    assert authType + ":" + token + Colons(0) == authType + ":" + token;
  }

  /** An unknown type is tolerated: the builder comes back unchanged. */
  lemma UnknownTypeIgnored(builder: ArgumentsBuilder, spec: string, decode: string -> string)
    requires |Split(spec)| == 2
    requires Trim(Split(spec)[0]) != "basic" && Trim(Split(spec)[0]) != "digest"
    requires |Split(decode(Trim(Split(spec)[1])))| >= 2
    ensures AddRemoteAuth(builder, Some(spec), decode) == Success(builder)
  {
    assert spec != "";
  }

  /**
   * Decorating again with the same spec changes nothing more: the second
   * call replaces the filter by an equal one.
   */
  lemma AddRemoteAuthIdempotent(builder: ArgumentsBuilder, spec: Option<string>, decode: string -> string)
    requires AddRemoteAuth(builder, spec, decode).Success?
    ensures AddRemoteAuth(AddRemoteAuth(builder, spec, decode).value, spec, decode) ==
      AddRemoteAuth(builder, spec, decode)
  {
    if spec.Some? && spec.value != "" {
      var once := AddRemoteAuth(builder, spec, decode).value;
      AddRemoteAuthWellFormed(builder, spec.value, decode);
      AddRemoteAuthWellFormed(once, spec.value, decode);
    }
  }

  /** A spec without a colon is one part, and is rejected. */
  lemma NoColonRejected(builder: ArgumentsBuilder, spec: string, decode: string -> string)
    requires ':' !in spec && spec != ""
    ensures AddRemoteAuth(builder, Some(spec), decode) == Failure(BadlyFormedAuthorization(spec))
  {
    SplitNoColon(spec);
  }

  /** "type:" loses its trailing empty field, so it is one part and is rejected too. */
  lemma EmptyTokenRejected(builder: ArgumentsBuilder, authType: string, decode: string -> string)
    requires ':' !in authType
    ensures AddRemoteAuth(builder, Some(authType + ":"), decode) ==
      Failure(BadlyFormedAuthorization(authType + ":"))
  {
    var spec := authType + ":";
    SplitAllGlue(authType, ":");
    SplitAllAfterColon("");
    assert ":" + "" == ":";
    assert SplitAll(":") == ["", ""];
    assert authType + "" == authType;
    var fields := SplitAll(spec);
    assert fields == [authType, ""];
    assert spec[|authType|] == ':';
    assert DropTrailingEmpty(fields) == DropTrailingEmpty([authType]);
    assert |Split(spec)| <= 1;
  }
}
