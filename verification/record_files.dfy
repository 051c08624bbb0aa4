// Files of records, one to a line: read line after line, and printed.
module RecordFiles {
  import opened Wrappers
  import opened RecordFields

  /** What reading a line comes to: nothing of use, a record, or reading past the end of the line. */
  datatype Outcome<T> = Skip | Rec(value: T) | Wild

  datatype Reading<T> = End | Got(value: T, rest: string) | Broken

  /** The first record of a file, lines of no use left out. */
  function Next<T>(parse: string -> Outcome<T>, text: string): (r: Reading<T>)
    ensures r.Got? ==> |r.rest| < |text|
    decreases |text|
  {
    if text == "" then
      End
    else
      match parse(FirstLine(text))
      case Skip => Next(parse, text[LineLen(text)..])
      case Rec(x) => Got(x, text[LineLen(text)..])
      case Wild => Broken
  }

  function ReadAll<T>(parse: string -> Outcome<T>, text: string): Option<seq<T>>
    decreases |text|
  {
    match Next(parse, text)
    case End => Some([])
    case Broken => None
    case Got(x, rest) =>
      match ReadAll(parse, rest)
      case None => None
      case Some(xs) => Some([x] + xs)
  }

  /** A file of printed records. */
  function Printed<T>(show: T -> string, xs: seq<T>): string {
    if xs == [] then "" else show(xs[0]) + "\n" + Printed(show, xs[1..])
  }

  /** A record whose line is read as that record, and is one line. */
  predicate Readable<T(==)>(parse: string -> Outcome<T>, show: T -> string, x: T) {
    parse(show(x)) == Rec(x) && OneLine(show(x))
  }

  /** The first of a file of printed records is got, and what is behind it left. */
  lemma NextPrinted<T>(parse: string -> Outcome<T>, show: T -> string, x: T, rest: string)
    requires Readable(parse, show, x)
    ensures Next(parse, show(x) + "\n" + rest) == Got(x, rest)
  {
    hide LineLen;
    LineLenIs(show(x), rest);
    FirstOf(show(x), rest);
  }

  /** If each record's line is read as that record, a file of printed records is read back. */
  lemma {:induction false} FileBack<T>(parse: string -> Outcome<T>, show: T -> string, xs: seq<T>)
    requires forall i | 0 <= i < |xs| :: Readable(parse, show, xs[i])
    ensures ReadAll(parse, Printed(show, xs)) == Some(xs)
    decreases |xs|
  {
    hide LineLen;
    if xs != [] {
      var t := show(xs[0]);
      var rest := Printed(show, xs[1..]);
      assert Readable(parse, show, xs[0]);
      LineLenIs(t, rest);
      FirstOf(t, rest);
      FileBack(parse, show, xs[1..]);
      assert [xs[0]] + xs[1..] == xs;
    }
  }
}
