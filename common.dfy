/** Values shared by the card page and the submission endpoint. */
module Common {

  datatype Option<+T> = None | Some(value: T)

  /** The answer the visitor gives: the page sends it, the endpoint accepts only these two. */
  datatype Response = YES | NO

  /** The wire form of an answer, the string carried in `{ response }`. */
  function Wire(r: Response): (s: string)
    ensures s == "YES" || s == "NO"
    ensures (s == "YES") == (r == YES)
  {
    match r
    case YES => "YES"
    case NO => "NO"
  }
}
