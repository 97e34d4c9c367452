# dictionary-letter-filter, modelled in Dafny

The program reads a word list, which it calls the dictionary. The list comes from a file or a URL. The program keeps the words spelled only from an allowed set of letters. It then writes the kept words, their count, or both.

The model has three modules, one per source file:

- `LetterFilter` (`filter.dfy`, from `src/filter.rs`) covers two things.
  - `MakeFilter` builds the letter set by inserting each character of the letters string. The result is proved equal to the specification function `LetterSet`.
  - `MatchesFilter` is the word predicate. A word matches when every one of its characters is in the set. Characters are compared exactly, with no case folding.
- `Dictionary` (`dictionary.dfy`, from `src/dictionary.rs`) covers two things.
  - `MakeDictionary` is the line-collecting loop of `make_dictionary`. The file and its line reader are abstracted as a parameter. That parameter holds the result of opening the file and, if the open succeeds, the sequence of per-line read results. The method is proved equal to the specification function `ReadAll`.
  - `GetMatches` is the matching loop. It is proved equal to the specification function `Matches`.
- `Cli` (`cli.dfy`, from `src/main.rs`) covers four things.
  - `ValidateConfig` checks which options are present.
  - `EmitsWords` and `EmitsCount` give the report-mode conditions.
  - `CountLine` builds the count line, `Word amount: ` followed by the decimal count.
  - `Run` goes from the options to the lines written out. The letters value, the opened file and the result of the URL fetch are parameters of `Run`.

`src/dictionary.rs:24` calls `word.matches(&filter)`. Rust resolves that name to `str::matches`, a pattern search, and the argument, a `&&HashSet<char>`, is not a pattern, so the line does not compile as written. The file imports `Filterable` at line 5 and defines no other matching function, so the intended call is plainly `matches_filter`. The model uses that.

The dictionary and the letter set are Dafny values. `get_matches` only borrows the dictionary, so no effect is lost. The input sequence cannot change, and the result is a new sequence.

## Model

| member | source | states |
|---|---|---|
| `LetterFilter.MakeFilter` | src/filter.rs:4-12 | The built set equals `LetterSet(letters)`. A character is in it iff it occurs in the letters string. Its size is at most the string's length. |
| `LetterFilter.LetterSetMembership` | src/filter.rs:4-12 | `c` is in `LetterSet(letters)` iff `c` occurs in `letters`. |
| `LetterFilter.LetterSetSize` | src/filter.rs:7-9 | The letter set has no more elements than the letters string has characters. |
| `LetterFilter.LetterSetCollapses` | src/filter.rs:7-9 | If a letter is repeated, the set is strictly smaller than the string, because duplicates collapse. |
| `LetterFilter.LetterSetEmpty` | src/filter.rs:5-11 | The letter set is empty iff the letters string is empty. |
| `LetterFilter.MatchesFilter` | src/filter.rs:22-24 | The left-to-right short-circuit walk over the characters is true iff every character of the word is in the set. |
| `LetterFilter.MatchesIffLettersWithin` | src/filter.rs:23 | A word matches iff the set of its own letters is a subset of the filter. |
| `LetterFilter.EmptyFilterMatchesOnlyEmptyWord` | src/filter.rs:23 | The empty word matches every set, the empty set included (vacuously). Against the empty set, every non-empty word fails. |
| `LetterFilter.MatchesMonotone` | src/filter.rs:23 | A word that matches a set also matches every superset of it. |
| `LetterFilter.MatchesConcat` | src/filter.rs:23 | `u + v` matches iff both `u` and `v` match. |
| `LetterFilter.CaseSensitive` | src/filter.rs:23 | "HELLO" does not match the set of "helo", and "hello" does. |
| `Dictionary.ReadAll` | src/dictionary.rs:11-17 | The result is Ok iff every line read succeeds. The list then holds the lines in source order. On an error it is the error of the first failed read, and every read before that one succeeded. |
| `Dictionary.ReadAllFailureSticks` | src/dictionary.rs:13-14 | Once a prefix of the reads has failed, later reads do not change the outcome. This is the early return of `?`. |
| `Dictionary.MakeDictionary` | src/dictionary.rs:7-18 | A failed open is returned as is. Otherwise the loop's result equals `ReadAll` of the line reads. |
| `Dictionary.Matches` | src/dictionary.rs:20-30 | The result is no longer than the dictionary. Every result word is a dictionary word that matches. Every matching dictionary word is in the result. |
| `Dictionary.GetMatches` | src/dictionary.rs:20-30 | The loop that pushes each matching word returns exactly `Matches(dict, filter)`. |
| `Dictionary.MatchesIsSubsequence` | src/dictionary.rs:21-29 | The result is the dictionary read at strictly increasing positions. Those positions are exactly the ones whose word matches, so order is kept and every duplicate is kept. |
| `Dictionary.MatchesMultiplicity` | src/dictionary.rs:23-26 | A matching word occurs in the result as many times as in the dictionary. A non-matching word never occurs. |
| `Dictionary.MatchesSingle` | src/dictionary.rs:23-26 | A one-word dictionary yields that word iff it matches, otherwise nothing. |
| `Dictionary.MatchesConcat` | src/dictionary.rs:21-29 | Matching distributes over concatenation of dictionaries. |
| `Dictionary.MatchesIdempotent` | src/dictionary.rs:20-30 | Matching the result again with the same filter returns it unchanged. |
| `Dictionary.MatchesAllKept` | src/dictionary.rs:23-26 | When every word matches, the result is the whole dictionary. |
| `Dictionary.MatchesEmptyIff` | src/dictionary.rs:21-29 | The result is empty iff no dictionary word matches. The empty dictionary is one such case. |
| `Dictionary.ExampleCatAct` | src/dictionary.rs:20-30 | With the letters "cat", ["cat","dog","act","tad"] yields ["cat","act"]. |
| `Dictionary.ExampleEmptyWordKept` | src/dictionary.rs:20-30 | With the letters "a", ["a","b","ab","ba",""] yields ["a",""]. The empty word is kept. |
| `Cli.Message` | src/main.rs:12-26 | Maps each of the four configuration errors to the literal text the validator pushes for it. The contract states that each text is a non-empty sentence ending in '!'. |
| `Cli.MessagesDistinct` | src/main.rs:12-26 | Different errors have different texts. |
| `Cli.ValidateConfig` | src/main.rs:9-29 | An error is reported iff its check fails. Errors come in check order with no repeats, and there are at most 3. The list is empty iff there is exactly one of -f/-u, -l is present, and -w and -c are not both present. |
| `Cli.ValidIffNoViolation` | src/main.rs:9-29 | The independent validity definition holds iff none of the four checks fails. |
| `Cli.EmitsWords` | src/main.rs:129 | The words-output condition reduces to "-c absent". |
| `Cli.EmitsCount` | src/main.rs:135 | The count-output condition reduces to "-c present or -w absent". |
| `Cli.ReportModes` | src/main.rs:128-137 | At least one of words and count is always written. Both are written iff neither -w nor -c is given. Under a valid configuration, exactly one is written iff one of the flags is given. |
| `Cli.DecimalString` | src/main.rs:136 | The count is written as a non-empty string of decimal digits with no leading zero. A leading '0' occurs only in the string "0" for zero. |
| `Cli.DecimalRoundTrip` | src/main.rs:136 | Reading the written digits back gives the count. |
| `Cli.CountLine` | src/main.rs:136 | The line is "Word amount: " followed by digits whose value is the number of matches. The digits are canonical: they start with '0' only when the whole line is "Word amount: 0". |
| `Cli.Report` | src/main.rs:127-137 | The emitted lines are the matched words in order when -c is absent, then the count line when -c is present or -w is absent. |
| `Cli.Run` | src/main.rs:86-138 | -h shows usage. Without -h, the run is rejected iff the configuration is invalid. A rejection carries exactly the failing checks' errors, in check order. With a valid configuration, the source is the URL if -u is given and the file otherwise. Loading that source fails the run with the matching outcome: a URL failure only under -u, a file failure only without -u. Otherwise the run always reports, and it writes the report of `Matches(dictionary, LetterSet(letters))`. |

## Left out

- Opening the file and splitting it into lines (`src/dictionary.rs:8-9`, `BufRead::lines`): the open result and the per-line read results are a parameter of `MakeDictionary`. The line-terminator rules belong to the Rust standard library.
- `make_dictionary_url` (called at `src/main.rs:96`) is not part of this model; the outcome of the fetch is a parameter of `Cli.Run`.
- Option declaration and parsing with getopts, and `env::args` (`src/main.rs:36-52`): the options are abstracted as a record of which flags are present, plus the letters value. A parse failure panics in the source and is not modelled.
- `print_usage` and the usage text (`src/main.rs:31-34`): `Run` only records that usage was shown.
- Printing the configuration errors to stderr (`src/main.rs:59-73`): `Run` returns the error list and `Message` gives each error's text.
- The output sink (`src/main.rs:78-84`, `113-125`): writing to stdout or appending to the -o file, and failing when that file cannot be opened. `Report` gives the list of lines written.
- `process::exit` and the exit codes: these are the `Outcome` cases.
- `HashSet` hashing: the letter set is a mathematical `set<char>`.
- Genericity over `AsRef<str>` and `AsRef<Path>`: words are `string`.
