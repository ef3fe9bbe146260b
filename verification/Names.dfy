// Names as the client holds them, UTF-16 strings, and as the wire and the runtime hold
// them, UTF-8: comparing one is comparing the other, for the strings the client lets through.

module Names {
  import opened Bytes
  import opened Utf8

  type Name = seq<codeUnit>

  /** `isWellFormed()`: no lone surrogate. */
  predicate IsWellFormed(n: Name)
  {
    forall i :: 0 <= i < |n| ==> !Lone(n, i)
  }

  /** Two well-formed names are the same exactly if their UTF-8 is. */
  lemma SameOnTheWire(a: Name, b: Name)
    requires IsWellFormed(a) && IsWellFormed(b)
    ensures Encoded(a) == Encoded(b) <==> a == b
  {
    EncodedIsFaithful(a, b);
    assert Scrubbed(a) == a && Scrubbed(b) == b;
  }

  /** Two names, one with a lone surrogate, that the wire cannot tell apart. */
  lemma IllFormedCollide()
    ensures Encoded([0xD800]) == Encoded([0xFFFD]) && [0xD800] != [0xFFFD]
  {
    assert Scalars([0xD800]) == [0xFFFD] + Scalars([0xD800][1..]);
    assert Scalars([0xFFFD]) == [0xFFFD] + Scalars([0xFFFD][1..]);
    assert [0xD800][0] != [0xFFFD][0];
  }

  /** Text around a well-formed name leaves it well formed when the text has no surrogates. */
  lemma WrappedWellFormed(before: Name, n: Name, after: Name)
    requires IsWellFormed(n)
    requires forall i :: 0 <= i < |before| ==> !High(before[i]) && !Low(before[i])
    requires forall i :: 0 <= i < |after| ==> !High(after[i]) && !Low(after[i])
    ensures IsWellFormed(before + n + after)
  {
    var all, b := before + n + after, |before|;
    forall i | 0 <= i < |all| ensures !Lone(all, i) {
      if b <= i < b + |n| {
        assert all[i] == n[i - b] && !Lone(n, i - b);
        if i > b { assert all[i - 1] == n[i - b - 1]; }
        if i + 1 < b + |n| { assert all[i + 1] == n[i - b + 1]; }
      }
    }
  }
}
