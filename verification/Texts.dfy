/** Text operations shared by the matchers and the exporters. */
module Texts {

  /** Python's `replace` of one character. */
  function Replace(s: string, c: char, sub: string): string {
    if s == "" then "" else (if s[0] == c then sub else [s[0]]) + Replace(s[1..], c, sub)
  }

  lemma {:induction false} ReplaceAppend(a: string, b: string, c: char, sub: string)
    ensures Replace(a + b, c, sub) == Replace(a, c, sub) + Replace(b, c, sub)
  {
    if a == "" {
      assert a + b == b;
    } else {
      ReplaceAppend(a[1..], b, c, sub);
      assert (a + b)[0] == a[0] && (a + b)[1..] == a[1..] + b;
      var first := if a[0] == c then sub else [a[0]];
      assert first + (Replace(a[1..], c, sub) + Replace(b, c, sub)) == first + Replace(a[1..], c, sub) + Replace(b, c, sub);
    }
  }
}
