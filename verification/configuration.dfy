/** The settings the token cache and the flight client read. */
module Configuration {

  datatype OpenSkyNetworkOptions = OpenSkyNetworkOptions(
    clientId: string,
    clientSecret: string,
    authUrl: string,
    baseUrl: string)

  const DefaultAuthUrl: string :=
    "https://auth.opensky-network.org/auth/realms/opensky-network/protocol/openid-connect/token"
  const DefaultBaseUrl: string := "https://opensky-network.org/api"

  /** A freshly constructed options object: empty credentials, the public endpoints. */
  const DefaultOptions := OpenSkyNetworkOptions("", "", DefaultAuthUrl, DefaultBaseUrl)
}
