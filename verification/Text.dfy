/** The order of text: characters compared one by one. */
module Text {

  /** Lexicographic order of characters. */
  predicate Less(s: string, t: string) {
    t != "" && (s == "" || s[0] < t[0] || (s[0] == t[0] && Less(s[1..], t[1..])))
  }

  lemma {:induction false} LessIsAsymmetric(s: string, t: string)
    requires Less(s, t)
    ensures !Less(t, s) && s != t
  {
    if s != "" && s[0] == t[0] { LessIsAsymmetric(s[1..], t[1..]); }
  }

  /** Whatever stands between, one of the two steps goes up. */
  lemma {:induction false} LessIsCotransitive(s: string, t: string, u: string)
    requires Less(s, u)
    ensures Less(s, t) || Less(t, u)
  {
    if s != "" && t != "" && s[0] == t[0] == u[0] { LessIsCotransitive(s[1..], t[1..], u[1..]); }
  }
}
