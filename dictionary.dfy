/**
 The dictionary: loading the word list line by line, and selecting the words
 that match a letter filter, in dictionary order, duplicates included.
 */
module Dictionary {
  import opened LetterFilter

  datatype Result<T, E> = Ok(value: T) | Err(error: E)

  /** An I/O failure reported while opening or reading the dictionary file;
      `id` tells one failure from another. */
  datatype IoError = IoError(id: nat)

  /** One step of the line reader: a line (terminator removed) or a failed read. */
  datatype LineRead = Line(text: string) | Failed(error: IoError)

  /** The words of `lines` when every read succeeds, otherwise the error of the
      first failed read. */
  function ReadAll(lines: seq<LineRead>): (r: Result<seq<string>, IoError>)
    ensures r.Ok? <==> forall i :: 0 <= i < |lines| ==> lines[i].Line?
    ensures r.Ok? ==> |r.value| == |lines| && forall i :: 0 <= i < |lines| ==> r.value[i] == lines[i].text
    ensures r.Err? ==> exists k :: 0 <= k < |lines| && lines[k] == Failed(r.error)
                                 && forall i :: 0 <= i < k ==> lines[i].Line?
  {
    if lines == [] then Ok([])
    else
      var init := lines[..|lines| - 1];
      assert forall i :: 0 <= i < |init| ==> init[i] == lines[i];
      match ReadAll(init)
      case Err(e) => Err(e)
      case Ok(words) =>
        match lines[|lines| - 1]
        case Line(text) => Ok(words + [text])
        case Failed(e) => Err(e)
  }

  /** Once a prefix of the lines has failed, nothing after it changes the outcome. */
  lemma {:induction false} ReadAllFailureSticks(lines: seq<LineRead>, n: nat)
    requires n <= |lines| && ReadAll(lines[..n]).Err?
    ensures ReadAll(lines) == ReadAll(lines[..n])
    decreases |lines| - n
  {
    if n < |lines| {
      assert lines[..n + 1][..n] == lines[..n];
      ReadAllFailureSticks(lines, n + 1);
    } else {
      assert lines[..n] == lines;
    }
  }

  /** Opens the dictionary file (`file` is the result of opening it and the lines the
      line reader then yields) and collects its lines; the first failure ends the
      load and no partial list is returned. */
  method MakeDictionary(file: Result<seq<LineRead>, IoError>) returns (r: Result<seq<string>, IoError>)
    ensures file.Err? ==> r == Err(file.error)
    ensures file.Ok? ==> r == ReadAll(file.value)
  {
    if file.Err? {
      return Err(file.error);
    }
    var lines := file.value;
    var words: seq<string> := [];
    for i := 0 to |lines|
      invariant ReadAll(lines[..i]) == Ok(words)
    {
      assert lines[..i + 1][..i] == lines[..i];
      match lines[i]
      case Failed(e) =>
        ReadAllFailureSticks(lines, i + 1);
        return Err(e);
      case Line(text) =>
        words := words + [text];
    }
    assert lines[..|lines|] == lines;
    r := Ok(words);
  }

  /** The words of `dict` that match `filter`, in dictionary order. */
  function Matches(dict: seq<string>, filter: set<char>): (r: seq<string>)
    ensures |r| <= |dict|
    ensures forall w :: w in r ==> w in dict && MatchesFilter(w, filter)
    ensures forall w :: w in dict && MatchesFilter(w, filter) ==> w in r
  {
    if dict == [] then []
    else
      var init := dict[..|dict| - 1];
      var last := dict[|dict| - 1];
      assert dict == init + [last];
      if MatchesFilter(last, filter) then Matches(init, filter) + [last]
      else Matches(init, filter)
  }

  /** Walks the dictionary and appends every matching word to a new list;
      the dictionary itself is only read. */
  method GetMatches(dict: seq<string>, filter: set<char>) returns (matches: seq<string>)
    ensures matches == Matches(dict, filter)
  {
    matches := [];
    for i := 0 to |dict|
      invariant matches == Matches(dict[..i], filter)
    {
      assert dict[..i + 1][..i] == dict[..i];
      if MatchesFilter(dict[i], filter) {
        matches := matches + [dict[i]];
      }
    }
    assert dict[..|dict|] == dict;
  }

  /** `sub` is `dict` read at the strictly increasing positions `idx`. */
  ghost predicate SelectedAt(sub: seq<string>, dict: seq<string>, idx: seq<nat>)
  {
    && |idx| == |sub|
    && (forall k :: 0 <= k < |idx| ==> idx[k] < |dict| && dict[idx[k]] == sub[k])
    && (forall k, l :: 0 <= k < l < |idx| ==> idx[k] < idx[l])
  }

  /** The matches are the dictionary read at exactly the positions of its matching
      words: a subsequence in the original order, each duplicate kept. */
  lemma {:induction false} MatchesIsSubsequence(dict: seq<string>, filter: set<char>) returns (idx: seq<nat>)
    ensures SelectedAt(Matches(dict, filter), dict, idx)
    ensures forall j :: 0 <= j < |dict| ==> (j in idx <==> MatchesFilter(dict[j], filter))
  {
    if dict == [] {
      idx := [];
    } else {
      var n := |dict| - 1;
      var init := dict[..n];
      var prev := MatchesIsSubsequence(init, filter);
      if MatchesFilter(dict[n], filter) {
        idx := prev + [n];
        SelectedAtExtend(Matches(init, filter), init, prev, dict[n]);
      } else {
        idx := prev;
        SelectedAtGrow(Matches(init, filter), init, prev, dict[n]);
      }
      assert init + [dict[n]] == dict;
      forall j | 0 <= j < |dict|
        ensures j in idx <==> MatchesFilter(dict[j], filter)
      {
        if j < n {
          assert dict[j] == init[j];
          assert j in idx <==> j in prev;
        }
      }
    }
  }

  lemma SelectedAtExtend(sub: seq<string>, dict: seq<string>, idx: seq<nat>, w: string)
    requires SelectedAt(sub, dict, idx)
    ensures SelectedAt(sub + [w], dict + [w], idx + [|dict|])
    ensures |dict| !in idx
  {
  }

  lemma SelectedAtGrow(sub: seq<string>, dict: seq<string>, idx: seq<nat>, w: string)
    requires SelectedAt(sub, dict, idx)
    ensures SelectedAt(sub, dict + [w], idx)
    ensures |dict| !in idx
  {
  }

  /** Each word occurs in the matches as often as in the dictionary if it matches, else never. */
  lemma {:induction false} MatchesMultiplicity(dict: seq<string>, filter: set<char>, w: string)
    ensures multiset(Matches(dict, filter))[w] == if MatchesFilter(w, filter) then multiset(dict)[w] else 0
  {
    if dict != [] {
      var init := dict[..|dict| - 1];
      MatchesMultiplicity(init, filter, w);
      assert dict == init + [dict[|dict| - 1]];
    }
  }

  lemma {:induction false} MatchesConcat(d1: seq<string>, d2: seq<string>, filter: set<char>)
    ensures Matches(d1 + d2, filter) == Matches(d1, filter) + Matches(d2, filter)
  {
    if d2 != [] {
      var init := d2[..|d2| - 1];
      MatchesConcat(d1, init, filter);
      assert (d1 + d2)[..|d1 + d2| - 1] == d1 + init;
    } else {
      assert d1 + d2 == d1;
    }
  }

  /** Filtering the matches again with the same filter changes nothing. */
  lemma {:induction false} MatchesIdempotent(dict: seq<string>, filter: set<char>)
    ensures Matches(Matches(dict, filter), filter) == Matches(dict, filter)
  {
    if dict != [] {
      var init := dict[..|dict| - 1];
      var last := dict[|dict| - 1];
      MatchesIdempotent(init, filter);
      if MatchesFilter(last, filter) {
        MatchesConcat(Matches(init, filter), [last], filter);
        assert Matches([last], filter) == [last] by {
          assert [last][..0] == [];
        }
      }
    }
  }

  /** When every word matches, the whole dictionary is returned unchanged. */
  lemma {:induction false} MatchesAllKept(dict: seq<string>, filter: set<char>)
    requires forall i :: 0 <= i < |dict| ==> MatchesFilter(dict[i], filter)
    ensures Matches(dict, filter) == dict
  {
    if dict != [] {
      var init := dict[..|dict| - 1];
      MatchesAllKept(init, filter);
      assert dict == init + [dict[|dict| - 1]];
    }
  }

  lemma MatchesEmptyIff(dict: seq<string>, filter: set<char>)
    ensures Matches(dict, filter) == [] <==> forall w :: w in dict ==> !MatchesFilter(w, filter)
  {
  }

  lemma MatchesSingle(w: string, filter: set<char>)
    ensures Matches([w], filter) == if MatchesFilter(w, filter) then [w] else []
  {
  }

  /** Order is kept and only words spelled from c, a, t survive. */
  lemma ExampleCatAct()
    ensures Matches(["cat", "dog", "act", "tad"], LetterSet("cat")) == ["cat", "act"]
  {
    var filter := LetterSet("cat");
    forall c ensures c in filter <==> c == 'c' || c == 'a' || c == 't' {
      LetterSetMembership("cat", c);
    }
    assert MatchesFilter("cat", filter) && MatchesFilter("act", filter);
    assert "dog"[0] == 'd' && "tad"[2] == 'd';
    assert !MatchesFilter("dog", filter) && !MatchesFilter("tad", filter);
    var d := ["cat", "dog", "act", "tad"];
    assert d[..3] == ["cat", "dog", "act"];
    assert d[..3][..2] == ["cat", "dog"];
    assert d[..3][..2][..1] == ["cat"];
    assert Matches(["cat"], filter) == ["cat"] by {
      assert ["cat"][..0] == [];
    }
    assert Matches(["cat", "dog"], filter) == ["cat"];
    assert Matches(["cat", "dog", "act"], filter) == ["cat", "act"];
  }

  /** The empty word matches vacuously and is kept. */
  lemma ExampleEmptyWordKept()
    ensures Matches(["a", "b", "ab", "ba", ""], LetterSet("a")) == ["a", ""]
  {
    var filter := LetterSet("a");
    forall c ensures c in filter <==> c == 'a' {
      LetterSetMembership("a", c);
    }
    assert MatchesFilter("a", filter) && MatchesFilter("", filter);
    assert "b"[0] == 'b' && "ab"[1] == 'b' && "ba"[0] == 'b';
    assert !MatchesFilter("b", filter) && !MatchesFilter("ab", filter) && !MatchesFilter("ba", filter);
    var d := ["a", "b", "ab", "ba", ""];
    assert d[..4] == ["a", "b", "ab", "ba"];
    assert d[..4][..3] == ["a", "b", "ab"];
    assert d[..4][..3][..2] == ["a", "b"];
    assert d[..4][..3][..2][..1] == ["a"];
    assert Matches(["a"], filter) == ["a"] by {
      assert ["a"][..0] == [];
    }
    assert Matches(["a", "b"], filter) == ["a"];
    assert Matches(["a", "b", "ab"], filter) == ["a"];
    assert Matches(["a", "b", "ab", "ba"], filter) == ["a"];
  }
}
