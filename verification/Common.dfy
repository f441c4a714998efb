/** What several parts of the model share. */
module Common {

  /** A value that may be missing. */
  datatype Option<+T> = None | Some(value: T)

  predicate Digit(c: char) {
    '0' <= c <= '9'
  }

  function LowerChar(c: char): char {
    if 'A' <= c <= 'Z' then (c as int + 32) as char else c
  }

  lemma Associate<T>(a: seq<T>, b: seq<T>, c: seq<T>)
    ensures (a + b) + c == a + (b + c)
  {
  }
}
