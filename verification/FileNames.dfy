/** File names of src/leveldb/__detail/filename.cc and the number parser of src/util/logging.cc. */
module FileNames {
  import opened Bytes
  import opened Coding

  predicate IsDigit(c: char) {
    '0' <= c <= '9'
  }

  predicate AllDigits(s: string) {
    forall c :: c in s ==> IsDigit(c)
  }

  function DigitValue(c: char): (d: nat)
    requires IsDigit(c)
    ensures d <= 9
  {
    c as int - '0' as int
  }

  function DigitChar(d: nat): (c: char)
    requires d <= 9
    ensures IsDigit(c) && DigitValue(c) == d
  {
    ('0' as int + d) as char
  }

  /** The number that a string of digits denotes. */
  function Value(s: string): nat
    requires AllDigits(s)
  {
    if s == [] then 0 else Value(s[..|s| - 1]) * 10 + DigitValue(s[|s| - 1])
  }

  /** The digits at the start of a string. */
  function DigitRun(s: string): (run: string)
    ensures AllDigits(run) && run <= s
    ensures |run| < |s| ==> !IsDigit(s[|run|])
  {
    if s == [] || !IsDigit(s[0]) then [] else [s[0]] + DigitRun(s[1..])
  }

  lemma {:induction false} DigitRunUnique(run: string, rest: string)
    requires AllDigits(run) && (rest == [] || !IsDigit(rest[0]))
    ensures DigitRun(run + rest) == run
  {
    if run == [] {
      assert run + rest == rest;
    } else {
      assert run[0] in run;
      assert (run + rest)[1..] == run[1..] + rest;
      DigitRunUnique(run[1..], rest);
    }
  }

  // ----- consume_decimal_number

  /** A longer string of digits denotes no smaller number. */
  lemma {:induction false} ValueGrows(s: string, n: nat)
    requires AllDigits(s) && n <= |s|
    ensures AllDigits(s[..n]) && Value(s[..n]) <= Value(s)
    decreases |s|
  {
    if n < |s| {
      assert s[..|s| - 1][..n] == s[..n];
      ValueGrows(s[..|s| - 1], n);
    } else {
      assert s[..n] == s;
    }
  }

  /** The overflow test is exact. */
  lemma OverflowTest(value: nat, d: nat)
    requires d <= 9
    ensures value > MAX_UINT64 / 10 || (value == MAX_UINT64 / 10 && d > MAX_UINT64 % 10) <==> value * 10 + d > MAX_UINT64
  {
  }

  /**
   Fails exactly if there is no digit at the start or all digits there together
   denote a number that does not fit; then the input is left alone, unless
   there is no digit to remove anyway.
   */
  method ConsumeDecimalNumber(input: string) returns (ok: bool, val: uint64, rest: string)
    ensures ok <==> DigitRun(input) != [] && Value(DigitRun(input)) <= MAX_UINT64
    ensures ok ==> val == Value(DigitRun(input)) && rest == input[|DigitRun(input)|..]
    ensures !ok ==> rest == input
  {
    var value: nat := 0;
    var current := 0;
    ghost var run := DigitRun(input);
    val, rest := 0, input;
    while current != |input|
      invariant current <= |run| && input[..current] == run[..current]
      invariant AllDigits(run[..current]) && value == Value(run[..current]) <= MAX_UINT64
      invariant rest == input
      decreases |input| - current
    {
      var ch := input[current];
      if !IsDigit(ch) {
        break;
      }
      assert current < |run|;
      assert run[..current + 1][..current] == run[..current];
      OverflowTest(value, DigitValue(ch));
      ValueGrows(run, current + 1);
      if value > MAX_UINT64 / 10 || (value == MAX_UINT64 / 10 && ch > DigitChar(MAX_UINT64 % 10)) {
        return false, val, rest;
      }
      value := value * 10 + DigitValue(ch);
      current := current + 1;
    }
    assert run[..current] == run;
    val := value;
    rest := input[current..];
    ok := current != 0;
  }

  // ----- Printed names

  /** %llu */
  function Digits(n: nat): (s: string)
    ensures s != [] && AllDigits(s) && Value(s) == n
  {
    if n < 10 then [DigitChar(n)]
    else
      var s := Digits(n / 10);
      assert (s + [DigitChar(n % 10)])[..|s|] == s;
      s + [DigitChar(n % 10)]
  }

  function Zeros(k: nat): (s: string)
    ensures |s| == k && AllDigits(s)
  {
    if k == 0 then [] else ['0'] + Zeros(k - 1)
  }

  /** %06llu */
  function Padded(n: nat): (s: string)
    ensures |s| >= 6 && AllDigits(s)
  {
    Zeros(if |Digits(n)| < 6 then 6 - |Digits(n)| else 0) + Digits(n)
  }

  lemma {:induction false} ZerosCountNothing(k: nat, s: string)
    requires AllDigits(s)
    ensures AllDigits(Zeros(k) + s) && Value(Zeros(k) + s) == Value(s)
    decreases k + |s|
  {
    if s != [] {
      assert (Zeros(k) + s)[..k + |s| - 1] == Zeros(k) + s[..|s| - 1];
      ZerosCountNothing(k, s[..|s| - 1]);
    } else if k > 0 {
      assert Zeros(k) + s == Zeros(k - 1) + ['0'] by {
        ZerosEnd(k);
      }
      ZerosCountNothing(k - 1, []);
      assert (Zeros(k - 1) + ['0'])[..k - 1] == Zeros(k - 1) + [];
    }
  }

  lemma {:induction false} ZerosEnd(k: nat)
    requires k > 0
    ensures Zeros(k) == Zeros(k - 1) + ['0']
  {
    if k > 1 {
      ZerosEnd(k - 1);
    }
  }

  lemma PaddedValue(n: nat)
    ensures Value(Padded(n)) == n
  {
    ZerosCountNothing(if |Digits(n)| < 6 then 6 - |Digits(n)| else 0, Digits(n));
  }

  function MakeFileName(dbname: string, number: uint64, suffix: string): string {
    dbname + ("/" + Padded(number) + "." + suffix)
  }

  function DescriptorFileName(dbname: string, number: uint64): string {
    dbname + ("/MANIFEST-" + Padded(number))
  }

  /** The name of a file in the directory `dbname`. */
  function BaseName(dbname: string, path: string): string
    requires |dbname| < |path|
  {
    path[|dbname| + 1..]
  }

  // ----- parse_file_name

  datatype FileType = LogFile | DBLockFile | TableFile | DescriptorFile | CurrentFile | TempFile | InfoLogFile

  datatype Parsed = Parsed(number: uint64, fileType: FileType)

  /** `digits` between `prefix` and `suffix`, for a number that fits. */
  ghost predicate Names(name: string, prefix: string, suffix: string, number: uint64) {
    exists digits ::
      && AllDigits(digits) && digits != [] && Value(digits) == number
      && name == prefix + digits + suffix
  }

  /** The names that stand for a file, each with its number and type. */
  ghost predicate Stands(name: string, number: uint64, fileType: FileType) {
    match fileType
    case CurrentFile => name == "CURRENT" && number == 0
    case DBLockFile => name == "LOCK" && number == 0
    case InfoLogFile => (name == "LOG" || name == "LOG.old") && number == 0
    case DescriptorFile => Names(name, "MANIFEST-", "", number)
    case LogFile => Names(name, "", ".log", number)
    case TableFile => Names(name, "", ".sst", number) || Names(name, "", ".ldb", number)
    case TempFile => Names(name, "", ".dbtmp", number)
  }

  /** A name determines its number and suffix. */
  lemma NamesBegin(name: string, prefix: string, suffix: string, number: uint64)
    requires Names(name, prefix, suffix, number)
    requires suffix == "" || !IsDigit(suffix[0])
    ensures name[..|prefix|] == prefix && |prefix| < |name| && IsDigit(name[|prefix|])
    ensures var rest := name[|prefix|..]; Value(DigitRun(rest)) == number && rest[|DigitRun(rest)|..] == suffix
  {
    var digits :| AllDigits(digits) && digits != [] && Value(digits) == number && name == prefix + digits + suffix;
    assert name[|prefix|..] == digits + suffix;
    DigitRunUnique(digits, suffix);
    assert name[|prefix|] == digits[0] && digits[0] in digits;
  }

  lemma NamesRun(name: string, prefix: string, number: uint64)
    requires prefix <= name
    requires var rest := name[|prefix|..]; DigitRun(rest) != [] && Value(DigitRun(rest)) == number
    ensures var rest := name[|prefix|..]; Names(name, prefix, rest[|DigitRun(rest)|..], number)
  {
    var rest := name[|prefix|..];
    var run := DigitRun(rest);
    assert name == prefix + run + rest[|run|..];
  }

  predicate IsFixedName(name: string) {
    name == "CURRENT" || name == "LOCK" || name == "LOG" || name == "LOG.old"
  }

  /** Digits that fit and one of the suffixes. */
  predicate IsNumbered(rest: string, suffixes: set<string>) {
    var run := DigitRun(rest);
    run != [] && Value(run) <= MAX_UINT64 && rest[|run|..] in suffixes
  }

  /** What the parser looks at: a name that is neither fixed nor numbered stands for nothing. */
  lemma StandsShape(name: string, number: uint64, fileType: FileType)
    requires !IsFixedName(name)
    requires "MANIFEST-" <= name ==> !IsNumbered(name[|"MANIFEST-"|..], {""})
    requires !("MANIFEST-" <= name) ==> !IsNumbered(name, {".log", ".sst", ".ldb", ".dbtmp"})
    ensures !Stands(name, number, fileType)
  {
    NotNamed(name, "MANIFEST-", "", number);
    NotNamed(name, "", ".log", number);
    NotNamed(name, "", ".sst", number);
    NotNamed(name, "", ".ldb", number);
    NotNamed(name, "", ".dbtmp", number);
  }

  /** To be named by a number is to be numbered. */
  lemma NotNamed(name: string, prefix: string, suffix: string, number: uint64)
    requires suffix == "" || !IsDigit(suffix[0])
    ensures Names(name, prefix, suffix, number) ==>
            prefix <= name && IsNumbered(name[|prefix|..], {suffix}) && (prefix == "" ==> IsDigit(name[0]))
  {
    if Names(name, prefix, suffix, number) {
      NamesBegin(name, prefix, suffix, number);
      assert name[|prefix|..][0] == name[|prefix|];
    }
  }

  method ParseFileName(filename: string) returns (result: Option<Parsed>)
    ensures result.Some? ==> Stands(filename, result.value.number, result.value.fileType)
    ensures result.None? ==> forall number, fileType :: !Stands(filename, number, fileType)
  {
    result := Recognize(filename);
    if result.None? {
      forall number, fileType
        ensures !Stands(filename, number, fileType)
      {
        StandsShape(filename, number, fileType);
      }
    }
  }

  method Recognize(filename: string) returns (result: Option<Parsed>)
    ensures result.Some? ==> Stands(filename, result.value.number, result.value.fileType)
    ensures result.None? ==> !IsFixedName(filename)
    ensures result.None? && "MANIFEST-" <= filename ==> !IsNumbered(filename[|"MANIFEST-"|..], {""})
    ensures result.None? && !("MANIFEST-" <= filename) ==> !IsNumbered(filename, {".log", ".sst", ".ldb", ".dbtmp"})
  {
    var rest := filename;
    if rest == "CURRENT" {
      return Some(Parsed(0, CurrentFile));
    } else if rest == "LOCK" {
      return Some(Parsed(0, DBLockFile));
    } else if rest == "LOG" || rest == "LOG.old" {
      return Some(Parsed(0, InfoLogFile));
    } else if "MANIFEST-" <= rest {
      rest := rest[|"MANIFEST-"|..];
      var ok, num, rest' := ConsumeDecimalNumber(rest);
      if !ok {
        return None;
      }
      if rest' != "" {
        return None;
      }
      NamesRun(filename, "MANIFEST-", num);
      return Some(Parsed(num, DescriptorFile));
    } else {
      var ok, num, suffix := ConsumeDecimalNumber(rest);
      if !ok {
        return None;
      }
      NamesRun(filename, "", num);
      if suffix == ".log" {
        return Some(Parsed(num, LogFile));
      } else if suffix == ".sst" || suffix == ".ldb" {
        return Some(Parsed(num, TableFile));
      } else if suffix == ".dbtmp" {
        return Some(Parsed(num, TempFile));
      } else {
        return None;
      }
    }
  }

  /** The suffix that `make_file_name` is called with for each type. */
  function SuffixFor(fileType: FileType): string {
    match fileType
    case LogFile => "log"
    case TableFile => "ldb"
    case TempFile => "dbtmp"
    case _ => ""
  }

  /** No name stands for two files, so what the parser finds is the only answer. */
  lemma StandsForOne(name: string, n: uint64, t: FileType, n': uint64, t': FileType)
    requires Stands(name, n, t) && Stands(name, n', t')
    ensures n == n' && t == t'
  {
    Shape(name, n, t);
    Shape(name, n', t');
  }

  /** A name that stands for a file, as the parser takes it apart. */
  lemma Shape(name: string, number: uint64, fileType: FileType)
    requires Stands(name, number, fileType)
    ensures fileType in {CurrentFile, DBLockFile, InfoLogFile} ==> IsFixedName(name) && number == 0
    ensures fileType == DescriptorFile ==> "MANIFEST-" <= name && Value(DigitRun(name[|"MANIFEST-"|..])) == number
    ensures fileType in {LogFile, TableFile, TempFile} ==>
      name != "" && IsDigit(name[0]) && Value(DigitRun(name)) == number && name[|DigitRun(name)|..] in SuffixesOf(fileType)
  {
    match fileType
    case DescriptorFile => NamesBegin(name, "MANIFEST-", "", number);
    case LogFile => PlainName(name, ".log", number);
    case TempFile => PlainName(name, ".dbtmp", number);
    case TableFile =>
      if Names(name, "", ".sst", number) {
        PlainName(name, ".sst", number);
      } else {
        PlainName(name, ".ldb", number);
      }
    case _ =>
  }

  function SuffixesOf(fileType: FileType): set<string> {
    match fileType
    case LogFile => {".log"}
    case TableFile => {".sst", ".ldb"}
    case TempFile => {".dbtmp"}
    case _ => {}
  }

  lemma PlainName(name: string, suffix: string, number: uint64)
    requires Names(name, "", suffix, number) && suffix != "" && !IsDigit(suffix[0])
    ensures name != "" && IsDigit(name[0]) && Value(DigitRun(name)) == number && name[|DigitRun(name)|..] == suffix
  {
    NamesBegin(name, "", suffix, number);
    assert name[|""|..] == name;
  }

  /** Every printed name stands for its number and type. */
  lemma PrintedStands(dbname: string, number: uint64, fileType: FileType)
    requires number > 0 && fileType in {LogFile, TableFile, TempFile}
    ensures Stands(BaseName(dbname, MakeFileName(dbname, number, SuffixFor(fileType))), number, fileType)
  {
    PaddedValue(number);
    var path := MakeFileName(dbname, number, SuffixFor(fileType));
    var suffix := "." + SuffixFor(fileType);
    assert BaseName(dbname, path) == "" + Padded(number) + suffix;
    assert Names(BaseName(dbname, path), "", suffix, number);
    assert "." + "log" == ".log" && "." + "ldb" == ".ldb" && "." + "dbtmp" == ".dbtmp";
  }

  lemma DescriptorStands(dbname: string, number: uint64)
    requires number > 0
    ensures Stands(BaseName(dbname, DescriptorFileName(dbname, number)), number, DescriptorFile)
  {
    PaddedValue(number);
    assert BaseName(dbname, DescriptorFileName(dbname, number)) == "MANIFEST-" + Padded(number) + "";
  }

  /** Printing and parsing give back the number and the type. */
  method ParsePrinted(dbname: string, number: uint64, fileType: FileType) returns (result: Option<Parsed>)
    requires number > 0 && fileType in {LogFile, TableFile, TempFile, DescriptorFile}
    ensures result == Some(Parsed(number, fileType))
  {
    var path := if fileType == DescriptorFile then DescriptorFileName(dbname, number)
                else MakeFileName(dbname, number, SuffixFor(fileType));
    var name := BaseName(dbname, path);
    assert Stands(name, number, fileType) by {
      if fileType == DescriptorFile {
        DescriptorStands(dbname, number);
      } else {
        PrintedStands(dbname, number, fileType);
      }
    }
    result := ParseFileName(name);
    if result.Some? {
      StandsForOne(name, number, fileType, result.value.number, result.value.fileType);
    }
  }
}
