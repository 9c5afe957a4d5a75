/** The load-balanced cluster: where the hash key of a request comes from. */
module LoadBalancer {
  import opened Wrappers
  import opened Text
  import opened Cookies

  datatype HashSource =
    | NoSource | ClientIp | Uri
    | Header(name: string) | Cookie(name: string)

  datatype ClientAddress = NoAddress | UnixSocket | Inet(ip: string)

  /** What `select_peer` reads of a session; header names are lower case, and `uuid` is the
      random identifier it would draw. */
  datatype Session = Session(client: ClientAddress, path: string, headers: map<string, string>, uuid: string)

  class LoadBalancerCluster {
    const hashSource: HashSource

    constructor (source: Option<HashSource>)
      ensures match source
        case None => hashSource == NoSource
        case Some(Cookie(name)) => hashSource == Cookie(name + "=")
        case Some(other) => hashSource == other
    {
      match source {
        case None => hashSource := NoSource;
        case Some(Cookie(name)) => hashSource := Cookie(name + "=");
        case Some(other) => hashSource := other;
      }
    }

    method HashKey(session: Session) returns (key: string)
      ensures match hashSource
        case NoSource => key == ""
        case ClientIp =>
          && (session.client.NoAddress? ==> key == "")
          && (session.client.UnixSocket? ==> key == session.uuid)
          && (session.client.Inet? ==> key == session.client.ip)
        case Uri => key == session.path
        case Header(name) =>
          key == if Lower(name) in session.headers && ToStr(session.headers[Lower(name)]).Some?
                 then session.headers[Lower(name)] else ""
        case Cookie(prefix) =>
          key == if "cookie" in session.headers && ToStr(session.headers["cookie"]).Some?
                 then ValueFor(session.headers["cookie"], prefix) else ""
    {
      match hashSource {
        case NoSource => key := "";
        case ClientIp =>
          match session.client {
            case NoAddress => key := "";
            case UnixSocket => key := session.uuid;
            case Inet(ip) => key := ip;
          }
        case Uri => key := session.path;
        case Header(name) =>
          key := "";
          if Lower(name) in session.headers {
            var text := ToStr(session.headers[Lower(name)]);
            if text.Some? {
              key := text.value;
            }
          }
        case Cookie(prefix) =>
          key := "";
          if "cookie" in session.headers {
            var text := ToStr(session.headers["cookie"]);
            if text.Some? {
              key := ExtractCookie(text.value, prefix);
            }
          }
      }
    }
  }

  method ExtractCookie(text: string, cookieKey: string) returns (sessionId: string)
    ensures sessionId == ValueFor(text, cookieKey)
  {
    sessionId := "";
    var parts := Split(text, ';');
    for i := 0 to |parts|
      invariant sessionId == ""
      invariant FirstPart(parts, cookieKey) == FirstPart(parts[i..], cookieKey)
    {
      var part := Trim(parts[i]);
      assert parts[i..][1..] == parts[i + 1..];
      if cookieKey <= part {
        sessionId := part[|cookieKey|..];
        break;
      }
    }
  }
}
