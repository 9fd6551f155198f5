/** What several models share. */
module Common {

  datatype Option<+T> = None | Some(value: T)

  type u8 = x: int | 0 <= x < 256

  predicate Alphanumeric(c: char) { 'A' <= c <= 'Z' || 'a' <= c <= 'z' || '0' <= c <= '9' }
}
