/** Upper case, and surrounding white space removed. */
module Strings {

  function Upper(s: string): string {
    seq(|s|, i requires 0 <= i < |s| => if 'a' <= s[i] <= 'z' then (s[i] as int - 32) as char else s[i])
  }

  predicate IsSpace(c: char) {
    c == ' ' || '\t' <= c <= '\r'
  }

  function Strip(s: string): string {
    if s != "" && IsSpace(s[0]) then Strip(s[1..])
    else if s != "" && IsSpace(s[|s| - 1]) then Strip(s[..|s| - 1])
    else s
  }

  /** Upper case turns each letter into its capital and leaves every other character. */
  lemma UpperOfTheAlphabet()
    ensures Upper("abcdefghijklmnopqrstuvwxyz") == "ABCDEFGHIJKLMNOPQRSTUVWXYZ"
  {
    assert Upper("abcdefghijklmnopqrstuvwxyz") == "ABCDEFGHIJKLMNOPQRSTUVWXYZ";
  }

  lemma UpperLeavesTheRest(s: string, i: nat)
    requires i < |s| && (s[i] < 'a' || 'z' < s[i])
    ensures Upper(s)[i] == s[i]
  {
  }
}
