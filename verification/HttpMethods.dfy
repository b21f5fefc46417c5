/** Request methods: a bit each of the nine that the masks use, and their names. */
module HttpMethods {
  import opened Options
  import opened CStrings

  datatype Method = GET | HEAD | POST | PUT | DELETE | CONNECT | OPTIONS | TRACE | PATCH

  function Bit(m: Method): bv9 {
    match m
    case GET => 1
    case HEAD => 2
    case POST => 4
    case PUT => 8
    case DELETE => 16
    case CONNECT => 32
    case OPTIONS => 64
    case TRACE => 128
    case PATCH => 256
  }

  predicate Meets(a: bv9, b: bv9) {
    (a & b) != 0
  }

  /** A method's bit is set in a mask. */
  predicate Allows(mask: bv9, m: Method) {
    Meets(mask, Bit(m))
  }

  function Name(m: Method): string {
    match m
    case GET => "GET"
    case HEAD => "HEAD"
    case POST => "POST"
    case PUT => "PUT"
    case DELETE => "DELETE"
    case CONNECT => "CONNECT"
    case OPTIONS => "OPTIONS"
    case TRACE => "TRACE"
    case PATCH => "PATCH"
  }

  /** Reading a name goes by its length first; None stands for -1. */
  function FromName(s: string): (r: Option<Method>)
    ensures r.Some? ==> s == Name(r.value)
  {
    match |s|
    case 3 => if s == "GET" then Some(GET) else if s == "PUT" then Some(PUT) else None
    case 4 => if s == "HEAD" then Some(HEAD) else if s == "POST" then Some(POST) else None
    case 5 => if s == "PATCH" then Some(PATCH) else if s == "TRACE" then Some(TRACE) else None
    case 6 => if s == "DELETE" then Some(DELETE) else None
    case 7 => if s == "OPTIONS" then Some(OPTIONS) else if s == "CONNECT" then Some(CONNECT) else None
    case _ => None
  }

  lemma NameRoundTrip(m: Method)
    ensures FromName(Name(m)) == Some(m)
    ensures Without(Name(m), ' ') && Without(Name(m), '\n') && Without(Name(m), '\r') && |Name(m)| <= 7
  {
  }
}
