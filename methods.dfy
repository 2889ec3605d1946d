/** The conversion of the inbound HTTP method to the one used upstream. */
module Methods {
  /** The request methods the conversion can produce. */
  datatype Method = GET | POST | PUT | DELETE | PATCH | HEAD | OPTIONS

  /** The method's name on the wire, `Method::as_str`. */
  function Name(m: Method): string
  {
    match m
    case GET => "GET"
    case POST => "POST"
    case PUT => "PUT"
    case DELETE => "DELETE"
    case PATCH => "PATCH"
    case HEAD => "HEAD"
    case OPTIONS => "OPTIONS"
  }

  predicate IsStandard(s: string)
  {
    s in {"GET", "POST", "PUT", "DELETE", "PATCH", "HEAD", "OPTIONS"}
  }

  /**
   * The seven standard verbs (matched case-sensitively) keep their meaning; any other
   * method, such as CONNECT, TRACE or a custom one, is sent as POST.
   */
  function MapMethod(s: string): (m: Method)
    ensures IsStandard(s) ==> Name(m) == s
    ensures !IsStandard(s) ==> m == POST
  {
    match s
    case "GET" => GET
    case "POST" => POST
    case "PUT" => PUT
    case "DELETE" => DELETE
    case "PATCH" => PATCH
    case "HEAD" => HEAD
    case "OPTIONS" => OPTIONS
    case _ => POST
  }

  /** Every method the conversion produces comes back unchanged from its own name. */
  lemma MapMethodOfName(m: Method)
    ensures IsStandard(Name(m)) && MapMethod(Name(m)) == m
  {
  }

  /** The method is kept exactly when it is one of the seven; otherwise the name changes to POST. */
  lemma MapMethodKeepsIffStandard(s: string)
    ensures Name(MapMethod(s)) == s <==> IsStandard(s)
  {
  }
}
