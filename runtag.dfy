/** The run tag and the archive path of the run's configuration copy. When the
    archive path for the chosen tag already exists, the coordinator replaces
    the tag by one derived from the current UTC date, `proc%Y-%j`, and
    recomputes the path. The clock is a parameter (year, day of year). */
module RunTag {
  import opened Common

  predicate IsDigit(ch: char) { '0' <= ch <= '9' }

  predicate AllDigits(s: string) { forall i :: 0 <= i < |s| ==> IsDigit(s[i]) }

  function DigitChar(d: nat): (ch: char)
    requires d < 10
    ensures IsDigit(ch)
  {
    ('0' as int + d) as char
  }

  function DigitValue(ch: char): nat
    requires IsDigit(ch)
  {
    ch as int - '0' as int
  }

  /** Decimal notation without leading zeros, as `%d` (and glibc's `%Y`) print it. */
  function Digits(n: nat): (s: string)
    ensures |s| >= 1 && AllDigits(s)
  {
    if n < 10 then [DigitChar(n)] else Digits(n / 10) + [DigitChar(n % 10)]
  }

  function Zeros(k: nat): (s: string)
    ensures |s| == k && AllDigits(s)
  {
    if k == 0 then "" else Zeros(k - 1) + "0"
  }

  /** Decimal notation left-padded with zeros to `width` characters, as `%03d` (and `%j`). */
  function Pad(n: nat, width: nat): (s: string)
    ensures AllDigits(s) && |s| >= width
  {
    var d := Digits(n);
    if |d| >= width then d else Zeros(width - |d|) + d
  }

  /** The number a string of decimal digits denotes. */
  function ValueOf(s: string): nat
    requires AllDigits(s)
  {
    if s == [] then 0 else ValueOf(s[..|s| - 1]) * 10 + DigitValue(s[|s| - 1])
  }

  lemma {:induction false} DigitsRoundTrip(n: nat)
    ensures ValueOf(Digits(n)) == n
  {
    if n >= 10 {
      DigitsRoundTrip(n / 10);
      var s := Digits(n);
      assert s[..|s| - 1] == Digits(n / 10);
    }
  }

  lemma {:induction false} DigitsLength(n: nat, k: nat)
    requires n < Power10(k) && k >= 1
    ensures |Digits(n)| <= k
  {
    if n >= 10 {
      DigitsLength(n / 10, k - 1);
    }
  }

  lemma {:induction false} DigitsLengthAtLeast(n: nat, k: nat)
    requires Power10(k) <= n
    ensures |Digits(n)| > k
  {
    if k > 0 {
      DigitsLengthAtLeast(n / 10, k - 1);
    }
  }

  function Power10(k: nat): nat {
    if k == 0 then 1 else 10 * Power10(k - 1)
  }

  /** Leading zeros do not change the value. */
  lemma {:induction false} ZerosNeutral(k: nat, s: string)
    requires AllDigits(s)
    ensures AllDigits(Zeros(k) + s) && ValueOf(Zeros(k) + s) == ValueOf(s)
  {
    var z := Zeros(k) + s;
    if s == [] {
      assert z == Zeros(k);
      if k > 0 {
        ZerosNeutral(k - 1, []);
        assert Zeros(k)[..k - 1] == Zeros(k - 1) + [];
      }
    } else {
      ZerosNeutral(k, s[..|s| - 1]);
      assert z[..|z| - 1] == Zeros(k) + s[..|s| - 1];
    }
  }

  lemma PadRoundTrip(n: nat, width: nat)
    ensures ValueOf(Pad(n, width)) == n
  {
    DigitsRoundTrip(n);
    if |Digits(n)| < width {
      ZerosNeutral(width - |Digits(n)|, Digits(n));
    }
  }

  /** `UTCDateTime().strftime('proc%Y-%j')`. */
  function FallbackTag(year: nat, dayOfYear: nat): string {
    "proc" + Digits(year) + "-" + Pad(dayOfYear, 3)
  }

  /** Reads back year and day of year from a tag of the form `procYYYY-DDD`. */
  function ParseFallbackTag(tag: string): Option<(nat, nat)> {
    if |tag| == 12 && tag[..4] == "proc" && tag[8] == '-' && AllDigits(tag[4..8]) && AllDigits(tag[9..])
    then Some((ValueOf(tag[4..8]), ValueOf(tag[9..])))
    else None
  }

  /** For a four-digit year and a day of year the fallback tag is exactly
      `proc<YYYY>-<DDD>` (12 characters) and gives back its date. */
  lemma FallbackTagRoundTrip(year: nat, dayOfYear: nat)
    requires 1000 <= year <= 9999 && 1 <= dayOfYear <= 366
    ensures |FallbackTag(year, dayOfYear)| == 12
    ensures ParseFallbackTag(FallbackTag(year, dayOfYear)) == Some((year, dayOfYear))
  {
    DigitsLength(year, 4);
    DigitsLengthAtLeast(year, 3);
    DigitsLength(dayOfYear, 3);
    var y := Digits(year);
    var d := Pad(dayOfYear, 3);
    var tag := FallbackTag(year, dayOfYear);
    assert tag[4..8] == y;
    assert tag[9..] == d;
    DigitsRoundTrip(year);
    PadRoundTrip(dayOfYear, 3);
  }

  /** `datadir + '/processed/xmlinput/ic.' + prepname + '.xml'`. */
  function ArchivePath(dataDir: string, tag: string): string {
    dataDir + "/processed/xmlinput/ic." + tag + ".xml"
  }

  lemma ArchivePathInjective(dataDir: string, tag1: string, tag2: string)
    ensures ArchivePath(dataDir, tag1) == ArchivePath(dataDir, tag2) <==> tag1 == tag2
  {
    var pre := dataDir + "/processed/xmlinput/ic.";
    if ArchivePath(dataDir, tag1) == ArchivePath(dataDir, tag2) {
      var p1, p2 := ArchivePath(dataDir, tag1), ArchivePath(dataDir, tag2);
      assert |tag1| == |tag2|;
      assert tag1 == p1[|pre|..|pre| + |tag1|];
      assert tag2 == p2[|pre|..|pre| + |tag2|];
    }
  }

  datatype TagChoice = TagChoice(tag: string, archivePath: string)

  /** The tag this run uses and where its configuration copy goes. */
  function ChooseTag(dataDir: string, tag: string, existing: set<string>, year: nat, dayOfYear: nat): (r: TagChoice)
    ensures r.archivePath == ArchivePath(dataDir, r.tag)
    ensures ArchivePath(dataDir, tag) !in existing ==> r.tag == tag
    ensures ArchivePath(dataDir, tag) in existing ==> r.tag == FallbackTag(year, dayOfYear)
  {
    if ArchivePath(dataDir, tag) in existing then
      var fallback := FallbackTag(year, dayOfYear);
      TagChoice(fallback, ArchivePath(dataDir, fallback))
    else
      TagChoice(tag, ArchivePath(dataDir, tag))
  }

  /** When the requested tag is not already today's fallback, the configuration
      copy moves away from the requested tag's path exactly when that path exists. */
  lemma CollisionAvoided(dataDir: string, tag: string, existing: set<string>, year: nat, dayOfYear: nat)
    requires tag != FallbackTag(year, dayOfYear)
    ensures ChooseTag(dataDir, tag, existing, year, dayOfYear).archivePath != ArchivePath(dataDir, tag)
            <==> ArchivePath(dataDir, tag) in existing
  {
    ArchivePathInjective(dataDir, tag, FallbackTag(year, dayOfYear));
  }

  /** The fallback path itself is not checked: a second collision on the same
      UTC day picks the same, already existing, path. */
  lemma FallbackNotChecked(dataDir: string, year: nat, dayOfYear: nat)
    ensures var fallback := FallbackTag(year, dayOfYear);
      var existing := {ArchivePath(dataDir, "run"), ArchivePath(dataDir, fallback)};
      ChooseTag(dataDir, "run", existing, year, dayOfYear).archivePath in existing
  {
  }
}
