/** Small shared datatypes and sequence helpers. */
module Prelude {

  datatype Option<+T> = None | Some(value: T)

  /** A word of the input vector. */
  datatype Token = Token(text: string)

  lemma PrefixOfPrefix<T>(a: seq<T>, b: seq<T>, c: seq<T>)
    requires a <= c
    requires b <= c[|a|..]
    ensures a + b <= c
    ensures c[|a + b|..] == c[|a|..][|b|..]
  {
  }
}
