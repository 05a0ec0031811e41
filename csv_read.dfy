/** A reader for the double-quoted CSV fields the export writes. It is the
    model's reference for reading an exported line back, not part of the
    application: inside a field `""` stands for one `"`, and a lone `"` ends it. */
module CsvRead {
  import opened Wrappers

  function Prepend(c: char, o: Option<(string, string)>): Option<(string, string)>
  {
    match o
    case None => None
    case Some((v, rest)) => Some(([c] + v, rest))
  }

  /** Reads a field's value up to its closing quote; returns it and what follows. */
  function ReadQuoted(s: string): Option<(string, string)>
  {
    if |s| == 0 then None
    else if s[0] == '"' then
      if |s| >= 2 && s[1] == '"' then Prepend('"', ReadQuoted(s[2..])) else Some(("", s[1..]))
    else Prepend(s[0], ReadQuoted(s[1..]))
  }

  /** Reads one quoted field from the start of `s`. */
  function ReadField(s: string): Option<(string, string)>
  {
    if |s| == 0 || s[0] != '"' then None else ReadQuoted(s[1..])
  }

  /** Reads a line of quoted fields separated by commas. */
  function ReadFields(line: string): Option<seq<string>>
    decreases |line|
  {
    match ReadField(line)
    case None => None
    case Some((v, rest)) =>
      if rest == "" then Some([v])
      else if rest[0] != ',' || |rest| >= |line| then None
      else
        match ReadFields(rest[1..])
        case None => None
        case Some(vs) => Some([v] + vs)
  }
}
