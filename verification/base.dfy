/** Values shared by the rest of the model: Java's nullable references, the
    checked exceptions of the resolver library, and the string helpers the
    façade relies on. */
module Base {

  /** A Java reference that may be null. */
  datatype Option<+T> = None | Some(value: T)

  /** What a call into the resolver library did: returned a value, or threw
      the checked exception that the façade catches. */
  datatype Outcome<+T> = Returned(value: T) | Threw

  /** Java's `s.endsWith(suffix)`. */
  predicate EndsWith(s: string, suffix: string) {
    |suffix| <= |s| && s[|s| - |suffix|..] == suffix
  }

  /** A concatenation ends with its second part. */
  lemma EndsWithConcat(p: string, s: string)
    ensures EndsWith(p + s, s)
  {
    assert (p + s)[|p + s| - |s|..] == s;
  }

  /** How Java's string concatenation renders a possibly-null string. */
  function Text(s: Option<string>): string {
    match s
    case None => "null"
    case Some(v) => v
  }
}
