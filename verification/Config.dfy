/** The part of the gateway configuration that routing and header rewriting read. */
module Config {
  import opened Wrappers
  import opened AccessControl

  datatype PathType = Prefix | Exact | Regex

  datatype HeaderConf = HeaderConf(
    addRequest: map<string, string>, removeRequest: seq<string>,
    addResponse: map<string, string>, removeResponse: seq<string>,
    preserveHost: bool)

  datatype RouteConf = RouteConf(
    path: string, pathType: PathType, upstreamId: string, hostnames: Option<seq<string>>,
    headers: HeaderConf, access: Option<AclConf>, errorPages: Option<map<int, string>>)
}
