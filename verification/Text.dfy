/** String functions of Go's standard library that several components use. */
module Text {
  import opened Outcomes

  /** Go's strings.IndexByte: the first occurrence of c, if any. */
  function IndexByte(s: string, c: char): (r: Option<nat>)
    ensures r.Some? ==> r.value < |s|
  {
    if s == "" then None
    else if s[0] == c then Some(0)
    else
      match IndexByte(s[1..], c)
      case None => None
      case Some(k) => Some(k + 1)
  }

  lemma {:induction false} IndexByteIsFirst(s: string, c: char)
    requires IndexByte(s, c).Some?
    ensures var k := IndexByte(s, c).value; s[k] == c && c !in s[..k]
  {
    if s[0] != c {
      IndexByteIsFirst(s[1..], c);
      var k := IndexByte(s[1..], c).value;
      assert s[..k + 1] == [s[0]] + s[1..][..k];
    }
  }

  lemma {:induction false} FirstIndex(s: string, c: char, k: nat)
    requires k < |s| && s[k] == c && c !in s[..k]
    ensures IndexByte(s, c) == Some(k)
  {
    if k > 0 {
      assert s[..k][0] == s[0];
      assert s[1..][..k - 1] == s[..k][1..];
      FirstIndex(s[1..], c, k - 1);
    }
  }
}
