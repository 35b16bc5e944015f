/** A .NET reference that may be null: a missing option value, or a line that
    Console.ReadLine could not read. */
module Optional {

  datatype Option<+T> = None | Some(value: T)

  /** The text that string interpolation produces for a possibly null string:
      a null value interpolates as the empty string. */
  function TextOf(s: Option<string>): string {
    match s
    case None => ""
    case Some(v) => v
  }
}
