/** Facts about sequence prefixes, proved once for every element type. */
module Seqs {

  /** The prefix one longer is the prefix with the next element appended. */
  lemma PrefixSnoc<T>(s: seq<T>, i: nat)
    requires i < |s|
    ensures s[..i + 1] == s[..i] + [s[i]]
  {
  }

  /** The prefix as long as the sequence is the sequence itself. */
  lemma PrefixAll<T>(s: seq<T>)
    ensures s[..|s|] == s
  {
  }

  /** Appending a prefix of `s` and then the rest of `s` appends `s`. */
  lemma PrefixSuffix<T>(a: seq<T>, s: seq<T>, k: nat)
    requires k <= |s|
    ensures a + s[..k] + s[k..] == a + s
  {
    assert s[..k] + s[k..] == s;
    assert a + s[..k] + s[k..] == a + (s[..k] + s[k..]);
  }
}
