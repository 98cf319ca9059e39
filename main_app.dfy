/**
 * The dashboard's start-up (source/ClientApp/static/js/main.js, the
 * Application constructor): it reads the server IP from the `server`
 * query parameter, falls back to 'localhost', sends the browser back to
 * the login page when the IP is malformed, and otherwise connects to
 * ws://IP:8080/.  The managers it then creates are not part of the model.
 */
module Dashboard {
  import opened Wrappers
  import opened Ipv4
  import Login

  /** isValidIP: exactly four dot-separated octets, nothing before or after. */
  predicate IsValidIP(ip: string) {
    DottedQuad(ip)
  }

  const Localhost: string := "localhost"

  /** The server IP: the query parameter, or 'localhost' when it is absent or empty. */
  function ServerIP(param: Option<string>): string {
    if param.None? || param.value == "" then Localhost else param.value
  }

  datatype Startup =
    | BackToLogin              // alert shown and the browser sent to '/'
    | Connect(url: string)     // the WebSocket manager is created for this URL

  /** ws://IP:8080/. */
  function SocketUrl(ip: string): string {
    "ws://" + ip + ":8080/"
  }

  /** The constructor's decision: validate unless the IP is 'localhost', then build the socket URL. */
  function Start(param: Option<string>): Startup {
    var ip := ServerIP(param);
    if ip != Localhost && !IsValidIP(ip) then BackToLogin else Connect(SocketUrl(ip))
  }

  /**
   * The dashboard connects exactly when the IP is 'localhost' (also the
   * fallback for a missing parameter) or a dotted quad, and then always
   * to port 8080 of that IP.
   */
  lemma StartIff(param: Option<string>)
    ensures Start(param).Connect? <==> ServerIP(param) == Localhost || IsValidIP(ServerIP(param))
    ensures Start(param).Connect? ==>
      var url := Start(param).url;
      |url| == |ServerIP(param)| + 11 && url[..5] == "ws://" && url[|url| - 6..] == ":8080/"
      && url[5..|url| - 6] == ServerIP(param)
    ensures param.None? || param == Some("") ==> Start(param) == Connect(SocketUrl(Localhost))
  {
    SocketUrlParts(ServerIP(param));
  }

  /** The socket URL reads back as the scheme, the IP and the fixed port. */
  lemma SocketUrlParts(ip: string)
    ensures var url := SocketUrl(ip);
      |url| == |ip| + 11 && url[..5] == "ws://" && url[|url| - 6..] == ":8080/" && url[5..|url| - 6] == ip
  {
    var url := SocketUrl(ip);
    assert url == "ws://" + ip + ":8080/";
    assert url[5..|url| - 6] == ip;
  }

  /** 'localhost' is not a dotted quad: the exception in the constructor is what lets it through. */
  lemma LocalhostIsNotQuad()
    ensures !IsValidIP(Localhost)
  {
    var parts := Split(Localhost, '.');
    SplitWhole(Localhost, '.');
    assert |parts| == 1;
  }

  /**
   * An address the login page validated hands the dashboard a host it
   * accepts, and the dashboard connects to port 8080 of that host whatever
   * port the login page validated.
   */
  lemma LoginHandOff(address: string)
    requires Login.ValidateAddress(address).Some?
    ensures Start(Some(Login.RedirectHost(address))) == Connect(SocketUrl(Login.RedirectHost(address)))
    ensures IsValidIP(Login.RedirectHost(address))
  {
    Login.ValidatedShape(address);
    LocalhostIsNotQuad();
    var host := Login.RedirectHost(address);
    assert host != "" by {
      if host == "" {
        SplitWhole(host, '.');
      }
    }
  }
}
