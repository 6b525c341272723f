/** Python's `sep.join(parts)`, shared by the whitespace collapse and the URL split. */
module Strings {

  /** `sep.join(parts)`: the parts with one copy of `sep` between neighbours. */
  function Join(sep: string, parts: seq<string>): (r: string)
    ensures parts != [] ==> parts[0] <= r
  {
    if parts == [] then []
    else if |parts| == 1 then parts[0]
    else parts[0] + sep + Join(sep, parts[1..])
  }

  /** Putting a part in front adds that part and, unless it is the only one, one separator. */
  lemma JoinCons(sep: string, first: string, rest: seq<string>)
    ensures Join(sep, [first] + rest) == if rest == [] then first else first + sep + Join(sep, rest)
  {
    assert ([first] + rest)[1..] == rest;
  }
}
