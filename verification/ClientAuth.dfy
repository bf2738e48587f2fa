/** The client check every grant starts with. */
module ClientAuth {
  import opened Wrappers

  /** The registered grant types. The device and MFA grants each have a URN and a short alias. */
  datatype GrantType =
    | Password | ClientCredentials | RefreshToken | AuthorizationCode
    | DeviceUrn | DeviceAlias | MfaOtpUrn | MfaOtpAlias | OtherGrant(name: string)

  datatype ClientType = Public | Confidential

  datatype Client = Client(id: string, clientId: string, enabled: bool, grantTypes: set<GrantType>,
                           clientType: ClientType, hasSecret: bool)

  /** The secret a request carries: none, or one that does or does not match the stored hash. */
  datatype Secret = NoSecret | Secret(valid: bool)

  datatype ClientError = ClientIdMissing | UnknownClient | GrantNotAllowed | SecretMissing | NoSecretConfigured | WrongSecret

  predicate Allows(client: Client, grantType: GrantType)
  {
    match grantType
    case DeviceUrn | DeviceAlias => DeviceUrn in client.grantTypes || DeviceAlias in client.grantTypes
    case MfaOtpUrn | MfaOtpAlias => MfaOtpUrn in client.grantTypes || Password in client.grantTypes
    case _ => grantType in client.grantTypes
  }

  function ValidateClient(clients: map<string, Client>, clientId: string, secret: Secret, grantType: GrantType)
    : (r: Result<Client, ClientError>)
    ensures r.Ok? <==>
            && clientId != "" && clientId in clients && clients[clientId].enabled
            && Allows(clients[clientId], grantType)
            && (clients[clientId].clientType.Confidential? ==> clients[clientId].hasSecret && secret == Secret(true))
    ensures r.Ok? ==> r.value == clients[clientId]
  {
    if clientId == "" then Err(ClientIdMissing)
    else if clientId !in clients || !clients[clientId].enabled then Err(UnknownClient)
    else
      var client := clients[clientId];
      if !Allows(client, grantType) then Err(GrantNotAllowed)
      else if client.clientType.Confidential? then
        if secret.NoSecret? then Err(SecretMissing)
        else if !client.hasSecret then Err(NoSecretConfigured)
        else if !secret.valid then Err(WrongSecret)
        else Ok(client)
      else Ok(client)
  }

  /** Every refusal, in the order of the checks. Two grants may be registered under an alias, and the one-time-code
      grant comes with the password grant. */
  lemma ClientAnswers(clients: map<string, Client>, clientId: string, secret: Secret, grantType: GrantType,
                      answer: Result<Client, ClientError>)
    requires answer == ValidateClient(clients, clientId, secret, grantType)
    ensures answer == Err(ClientIdMissing) <==> clientId == ""
    ensures answer == Err(UnknownClient) <==> clientId != "" && (clientId !in clients || !clients[clientId].enabled)
    ensures clientId != "" && clientId in clients && clients[clientId].enabled ==>
              var client := clients[clientId];
              var may := match grantType
                         case DeviceUrn | DeviceAlias => !(client.grantTypes !! {DeviceUrn, DeviceAlias})
                         case MfaOtpUrn | MfaOtpAlias => !(client.grantTypes !! {MfaOtpUrn, Password})
                         case _ => grantType in client.grantTypes;
              var asked := may && client.clientType.Confidential?;
              && (answer == Err(GrantNotAllowed) <==> !may)
              && (answer == Err(SecretMissing) <==> asked && secret == NoSecret)
              && (answer == Err(NoSecretConfigured) <==> asked && secret != NoSecret && !client.hasSecret)
              && (answer == Err(WrongSecret) <==> asked && client.hasSecret && secret == Secret(false))
              && (answer == Ok(client) <==>
                    may && (client.clientType.Public? || (client.hasSecret && secret == Secret(true))))
  {
  }
}
