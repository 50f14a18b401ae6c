/** Text that several parts of the program cut. */
module Strings {
  const CRLF := "\r\n"

  /** `split` at a character: the pieces between its occurrences. */
  function SplitAt(s: string, sep: char): (pieces: seq<string>)
    ensures pieces != []
    decreases |s|
  {
    if s == "" then [""]
    else
      var rest := SplitAt(s[1..], sep);
      if s[0] == sep then [""] + rest else [[s[0]] + rest[0]] + rest[1..]
  }
}
