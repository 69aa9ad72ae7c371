/** The names `assertObjectName` in src/attorney.ts lets through. */
module Names {

  predicate LegalChar(c: char)
  {
    'a' <= c <= 'z' || 'A' <= c <= 'Z' || '0' <= c <= '9' || c == '_' || c == '.' || c == '-' || c == '/'
  }

  predicate LegalChars(s: string)
  {
    forall i | 0 <= i < |s| :: LegalChar(s[i])
  }

  /** A queue name. A schedule's key may be empty as well. */
  predicate LegalName(name: string)
  {
    name != "" && LegalChars(name)
  }
}
