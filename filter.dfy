/**
 The letter filter: a set of allowed characters built from a letters string,
 and the predicate that a word uses only allowed characters.
 Characters are compared exactly; there is no case folding.
 */
module LetterFilter {

  /** The set of characters that occur in `letters`, duplicates collapsed.
      Defined front to back, one character at a time, as the builder inserts them. */
  function LetterSet(letters: string): set<char>
  {
    if letters == [] then {}
    else LetterSet(letters[..|letters| - 1]) + {letters[|letters| - 1]}
  }

  lemma {:induction false} LetterSetMembership(letters: string, c: char)
    ensures c in LetterSet(letters) <==> c in letters
  {
    if letters != [] {
      var init := letters[..|letters| - 1];
      LetterSetMembership(init, c);
      assert letters == init + [letters[|letters| - 1]];
    }
  }

  lemma {:induction false} LetterSetSize(letters: string)
    ensures |LetterSet(letters)| <= |letters|
  {
    if letters != [] {
      LetterSetSize(letters[..|letters| - 1]);
    }
  }

  /** A repeated letter collapses: the set is then strictly smaller than the string. */
  lemma {:induction false} LetterSetCollapses(letters: string, i: nat, j: nat)
    requires i < j < |letters| && letters[i] == letters[j]
    ensures |LetterSet(letters)| < |letters|
  {
    var init := letters[..|letters| - 1];
    if j == |letters| - 1 {
      assert letters[i] == init[i];
      LetterSetMembership(init, letters[i]);
      assert LetterSet(letters) == LetterSet(init);
      LetterSetSize(init);
    } else {
      assert init[i] == init[j];
      LetterSetCollapses(init, i, j);
    }
  }

  lemma LetterSetEmpty(letters: string)
    ensures LetterSet(letters) == {} <==> letters == []
  {
  }

  /** Builds the filter by inserting every character of `letters` into an initially empty set. */
  method MakeFilter(letters: string) returns (filter: set<char>)
    ensures filter == LetterSet(letters)
    ensures forall c :: c in filter <==> c in letters
    ensures |filter| <= |letters|
  {
    filter := {};
    for i := 0 to |letters|
      invariant filter == LetterSet(letters[..i])
    {
      assert letters[..i + 1][..i] == letters[..i];
      filter := filter + {letters[i]};
    }
    assert letters[..|letters|] == letters;
    forall c
      ensures c in filter <==> c in letters
    {
      LetterSetMembership(letters, c);
    }
    LetterSetSize(letters);
  }

  /** Does `word` use only characters of `filter`? The characters are examined left
      to right and the answer is false at the first one missing from the set. */
  function MatchesFilter(word: string, filter: set<char>): (r: bool)
    ensures r <==> forall i :: 0 <= i < |word| ==> word[i] in filter
  {
    if word == [] then true
    else word[0] in filter && MatchesFilter(word[1..], filter)
  }

  /** A word matches exactly when the set of its own letters lies within the filter. */
  lemma MatchesIffLettersWithin(word: string, filter: set<char>)
    ensures MatchesFilter(word, filter) <==> LetterSet(word) <= filter
  {
    forall c
      ensures c in LetterSet(word) <==> c in word
    {
      LetterSetMembership(word, c);
    }
  }

  /** The empty word matches every filter, the empty one included; no other word
      matches the empty filter. */
  lemma EmptyFilterMatchesOnlyEmptyWord(word: string, filter: set<char>)
    ensures MatchesFilter([], filter)
    ensures MatchesFilter(word, {}) <==> word == []
  {
  }

  lemma MatchesMonotone(word: string, small: set<char>, large: set<char>)
    requires small <= large && MatchesFilter(word, small)
    ensures MatchesFilter(word, large)
  {
  }

  lemma MatchesConcat(u: string, v: string, filter: set<char>)
    ensures MatchesFilter(u + v, filter) <==> MatchesFilter(u, filter) && MatchesFilter(v, filter)
  {
    assert forall i :: 0 <= i < |u| ==> (u + v)[i] == u[i];
    assert forall i :: 0 <= i < |v| ==> (u + v)[|u| + i] == v[i];
  }

  /** No case folding: an upper-case word does not match a lower-case filter. */
  lemma CaseSensitive()
    ensures !MatchesFilter("HELLO", LetterSet("helo"))
    ensures MatchesFilter("hello", LetterSet("helo"))
  {
    assert "HELLO"[0] == 'H';
    LetterSetMembership("helo", 'H');
    MatchesIffLettersWithin("hello", LetterSet("helo"));
    forall c | c in LetterSet("hello")
      ensures c in LetterSet("helo")
    {
      LetterSetMembership("hello", c);
      LetterSetMembership("helo", c);
    }
  }
}
