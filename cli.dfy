/**
 The command-line driver: validating which options were given, choosing what to
 report, and the whole run from options to the lines written out.
 */
module Cli {
  import opened LetterFilter
  import opened Dictionary

  /** Which options were present on the command line:
      -h (help), -f (file), -u (url), -l (letters), -w (words only), -c (count only). */
  datatype Options = Options(help: bool, file: bool, url: bool, letters: bool, words: bool, count: bool)

  /** The four configuration errors, one per check. */
  datatype ConfigError = BothSources | NoSource | NoLetters | WordsAndCount

  /** The text reported for each configuration error; each is a non-empty sentence
      ending in an exclamation mark. */
  function Message(e: ConfigError): (m: string)
    ensures |m| > 0 && m[|m| - 1] == '!'
  {
    match e
    case BothSources => "Can't fetch the dictionary from both a file and URL at the same time!"
    case NoSource => "Provide at least a file dictionary or a url to a dictionary!"
    case NoLetters => "Provide a list of letters!"
    case WordsAndCount => "Select only words or count, both are enabled by default, so remove those arguments!"
  }

  /** No two errors share a text, so the printed list tells them apart. */
  lemma MessagesDistinct(e1: ConfigError, e2: ConfigError)
    requires e1 != e2
    ensures Message(e1) != Message(e2)
  {
    var both, none, letters, modes := Message(BothSources), Message(NoSource), Message(NoLetters), Message(WordsAndCount);
    assert both[|both| - 2] == 'e';
    assert none[|none| - 2] == 'y';
    assert letters[|letters| - 2] == 's' && letters[|letters| - 3] == 'r';
    assert modes[|modes| - 2] == 's' && modes[|modes| - 3] == 't';
  }

  /** Position of each check in the validator. */
  function CheckOrder(e: ConfigError): nat
  {
    match e
    case BothSources => 0
    case NoSource => 1
    case NoLetters => 2
    case WordsAndCount => 3
  }

  /** Whether the options trip the check that reports `e`. */
  predicate Violates(opts: Options, e: ConfigError)
  {
    match e
    case BothSources => opts.file && opts.url
    case NoSource => !opts.file && !opts.url
    case NoLetters => !opts.letters
    case WordsAndCount => opts.words && opts.count
  }

  /** A usable configuration: exactly one dictionary source, a letters list,
      and not both of words-only and count-only. */
  predicate ValidConfig(opts: Options)
  {
    opts.file != opts.url && opts.letters && !(opts.words && opts.count)
  }

  lemma ValidIffNoViolation(opts: Options)
    ensures ValidConfig(opts) <==> forall e :: !Violates(opts, e)
  {
    if !ValidConfig(opts) {
      if opts.file == opts.url {
        assert Violates(opts, if opts.file then BothSources else NoSource);
      } else if !opts.letters {
        assert Violates(opts, NoLetters);
      } else {
        assert Violates(opts, WordsAndCount);
      }
    }
  }

  /** Runs the four checks in turn and collects an error for each one that fails. */
  method ValidateConfig(opts: Options) returns (errors: seq<ConfigError>)
    ensures forall e :: e in errors <==> Violates(opts, e)
    ensures forall i, j :: 0 <= i < j < |errors| ==> CheckOrder(errors[i]) < CheckOrder(errors[j])
    ensures errors == [] <==> ValidConfig(opts)
    ensures |errors| <= 3
  {
    errors := [];
    if opts.file && opts.url {
      errors := errors + [BothSources];
    }
    if !opts.file && !opts.url {
      errors := errors + [NoSource];
    }
    if !opts.letters {
      errors := errors + [NoLetters];
    }
    if opts.words && opts.count {
      errors := errors + [WordsAndCount];
    }
    ValidIffNoViolation(opts);
    if errors == [] {
      assert forall e :: !Violates(opts, e);
    }
  }

  /** Whether the matched words are written: "-w alone, or neither -w nor -c". */
  function EmitsWords(opts: Options): (r: bool)
    ensures r <==> !opts.count
  {
    (opts.words && !opts.count) || (!opts.words && !opts.count)
  }

  /** Whether the count line is written: "-c, or neither -w nor -c". */
  function EmitsCount(opts: Options): (r: bool)
    ensures r <==> opts.count || !opts.words
  {
    opts.count || (!opts.words && !opts.count)
  }

  /** Something is always reported, and both kinds exactly when neither flag is given. */
  lemma ReportModes(opts: Options)
    ensures EmitsWords(opts) || EmitsCount(opts)
    ensures EmitsWords(opts) && EmitsCount(opts) <==> !opts.words && !opts.count
    ensures ValidConfig(opts) ==> (EmitsWords(opts) != EmitsCount(opts) <==> opts.words || opts.count)
  {
  }

  function DigitChar(d: nat): (c: char)
    requires d < 10
    ensures '0' <= c <= '9' && c as int - '0' as int == d
  {
    (d + '0' as int) as char
  }

  predicate AllDigits(s: string)
  {
    forall i :: 0 <= i < |s| ==> '0' <= s[i] <= '9'
  }

  /** The decimal writing of `n`, most significant digit first, without leading zeros. */
  function DecimalString(n: nat): (s: string)
    ensures |s| > 0 && AllDigits(s)
    ensures s[0] == '0' ==> n == 0 && s == "0"
    decreases n
  {
    if n < 10 then [DigitChar(n)]
    else DecimalString(n / 10) + [DigitChar(n % 10)]
  }

  /** The number a string of decimal digits denotes. */
  function DecimalValue(s: string): nat
    requires AllDigits(s)
  {
    if s == [] then 0
    else 10 * DecimalValue(s[..|s| - 1]) + (s[|s| - 1] as int - '0' as int)
  }

  lemma {:induction false} DecimalRoundTrip(n: nat)
    ensures DecimalValue(DecimalString(n)) == n
    decreases n
  {
    if n >= 10 {
      DecimalRoundTrip(n / 10);
      var s := DecimalString(n);
      assert s[..|s| - 1] == DecimalString(n / 10);
    }
  }

  const CountPrefix: string := "Word amount: "

  /** The closing report line: the prefix followed by the number of matches in decimal. */
  function CountLine(n: nat): (line: string)
    ensures |line| > |CountPrefix| && line[..|CountPrefix|] == CountPrefix
    ensures AllDigits(line[|CountPrefix|..]) && DecimalValue(line[|CountPrefix|..]) == n
    ensures line[|CountPrefix|] == '0' ==> line == CountPrefix + "0"
  {
    var digits := DecimalString(n);
    DecimalRoundTrip(n);
    assert (CountPrefix + digits)[|CountPrefix|..] == digits;
    CountPrefix + digits
  }

  /** The lines the run writes for `matches` under `opts`: the words, then the count line. */
  function ReportLines(opts: Options, matches: seq<string>): seq<string>
  {
    (if EmitsWords(opts) then matches else [])
    + (if EmitsCount(opts) then [CountLine(|matches|)] else [])
  }

  /** Writes each matched word on its own line when words are reported, then the
      count line when the count is reported. */
  method Report(opts: Options, matches: seq<string>) returns (out: seq<string>)
    ensures out == ReportLines(opts, matches)
    ensures !opts.count ==> out[..|matches|] == matches
    ensures |out| == (if opts.count then 0 else |matches|) + (if opts.count || !opts.words then 1 else 0)
  {
    out := [];
    if EmitsWords(opts) {
      for i := 0 to |matches|
        invariant out == matches[..i]
      {
        out := out + [matches[i]];
      }
    }
    if EmitsCount(opts) {
      out := out + [CountLine(|matches|)];
    }
  }

  /** How a run ends: the usage text, the configuration errors, a failed load, or the report. */
  datatype Outcome =
    | Usage
    | Rejected(errors: seq<ConfigError>)
    | FetchFailed
    | FileFailed
    | Reported(lines: seq<string>)

  datatype FetchError = FetchError

  /** One run of the program. `letters` is the value given to -l, `file` what opening
      and reading the -f file yields, `fetched` what fetching the -u dictionary yields. */
  method Run(opts: Options, letters: string, file: Result<seq<LineRead>, IoError>,
             fetched: Result<seq<string>, FetchError>) returns (outcome: Outcome)
    ensures opts.help <==> outcome.Usage?
    ensures !opts.help ==> (outcome.Rejected? <==> !ValidConfig(opts))
    ensures outcome.Rejected? ==> outcome.errors != [] && forall e :: e in outcome.errors <==> Violates(opts, e)
    ensures outcome.Rejected? ==>
              forall i, j :: 0 <= i < j < |outcome.errors| ==> CheckOrder(outcome.errors[i]) < CheckOrder(outcome.errors[j])
    ensures !opts.help && ValidConfig(opts) ==>
              (outcome.Reported? <==> if opts.url then fetched.Ok? else file.Ok? && ReadAll(file.value).Ok?)
    ensures outcome.FetchFailed? ==> opts.url
    ensures outcome.FileFailed? ==> !opts.url
    ensures !opts.help && ValidConfig(opts) && opts.url ==> (outcome.FetchFailed? <==> fetched.Err?)
    ensures !opts.help && ValidConfig(opts) && !opts.url ==>
              (outcome.FileFailed? <==> file.Err? || ReadAll(file.value).Err?)
    ensures outcome.Reported? ==>
              var dict := if opts.url then fetched.value else ReadAll(file.value).value;
              outcome.lines == ReportLines(opts, Matches(dict, LetterSet(letters)))
  {
    if opts.help {
      return Usage;
    }
    var errors := ValidateConfig(opts);
    if errors != [] {
      return Rejected(errors);
    }
    var filter := MakeFilter(letters);
    var dict: seq<string>;
    if opts.url {
      if fetched.Err? {
        return FetchFailed;
      }
      dict := fetched.value;
    } else {
      var loaded := MakeDictionary(file);
      if loaded.Err? {
        return FileFailed;
      }
      dict := loaded.value;
    }
    var matches := GetMatches(dict, filter);
    var lines := Report(opts, matches);
    outcome := Reported(lines);
  }
}
