/** The file names the voice journal and the vision gallery derive from the
    current time: the ISO-8601 instant `YYYY-MM-DDTHH:MM:SS.sssZ` that
    `toISOString()` produces becomes a directory `YYYY-MM-DD` and a file named
    after the time of day. Four copies of the rule exist (the voice package,
    the voice upload route, the vision package and the vision route); they
    differ only in how much of the fraction they keep and in the extension. */
module TimestampPaths {
  import opened Wrappers
  import opened Text

  // ---------------------------------------------------------------------------
  // The instant and its ISO string
  // ---------------------------------------------------------------------------

  /** A UTC instant with millisecond precision, as a `Date` holds it. */
  datatype Instant = Instant(year: nat, month: nat, day: nat, hour: nat, minute: nat, second: nat, millis: nat)

  /** The instants whose ISO string has a four-digit year. */
  predicate ValidInstant(t: Instant) {
    1000 <= t.year <= 9999 && 1 <= t.month <= 12 && 1 <= t.day <= 31 &&
    t.hour < 24 && t.minute < 60 && t.second < 60 && t.millis < 1000
  }

  /** `String(n).padStart(3, "0")` for a millisecond count. */
  function Pad3(n: nat): (r: string)
    requires n < 1000
    ensures |r| == 3 && AllDigits(r)
  {
    if n < 10 then "00" + Decimal(n)
    else if n < 100 then "0" + Pad2(n)
    else
      assert |Decimal(n / 10)| == 2;
      Decimal(n)
  }

  /** `YYYY-MM-DD`, the date part of the ISO string. */
  function DatePart(t: Instant): (d: string)
    requires ValidInstant(t)
  {
    Decimal(t.year) + "-" + Pad2(t.month) + "-" + Pad2(t.day)
  }

  /** `toISOString()`. */
  function IsoString(t: Instant): (iso: string)
    requires ValidInstant(t)
  {
    DatePart(t) + "T" + Pad2(t.hour) + ":" + Pad2(t.minute) + ":" + Pad2(t.second) + "." + Pad3(t.millis) + "Z"
  }

  // ---------------------------------------------------------------------------
  // Taking the ISO string apart
  // ---------------------------------------------------------------------------

  /** What the shared destructuring pulls out of the ISO string: the date,
      hours, minutes, whole seconds and what follows the `.` of the seconds. */
  datatype TimeFields = TimeFields(date: string, hours: string, minutes: string, secs: string, fraction: string)

  /** `iso.split("T")`, then `time.split(":")`, then `seconds.split(".")`. A
      missing time, seconds or fraction makes the next method call throw a
      `TypeError`, which is `None`. */
  function Fields(iso: string): (f: Option<TimeFields>)
    ensures f.Some? ==> StartsWith(iso, f.value.date + "T")
    ensures f.Some? ==> 'T' !in f.value.date && ':' !in f.value.hours && '.' !in f.value.secs
  {
    var halves := Split(iso, 'T');
    if |halves| < 2 then None
    else
      var hms := Split(halves[1], ':');
      if |hms| < 3 then None
      else
        var sf := Split(hms[2], '.');
        if |sf| < 2 then None
        else
          SplitPrefix(iso, 'T');
          Some(TimeFields(halves[0], hms[0], hms[1], sf[0], sf[1]))
  }

  /** The first piece of a split, and the separator after it when there is a
      second piece, start the string. */
  lemma {:induction false} SplitPrefix(s: string, c: char)
    ensures |Split(s, c)| >= 2 ==> StartsWith(s, Split(s, c)[0] + [c])
  {
    if s != [] {
      SplitPrefix(s[1..], c);
    }
  }

  lemma DigitsLack(s: string, c: char)
    requires AllDigits(s) && !IsDigit(c)
    ensures c !in s
  {
  }

  /** Splitting `a + [c] + b` where `b` has no `c`. */
  lemma SplitTwo(a: string, c: char, b: string)
    requires c !in a && c !in b
    ensures Split(a + [c] + b, c) == [a, b]
  {
    SplitAtFirst(a, c, b);
    SplitNoSeparator(b, c);
  }

  /** Splitting `a + [c] + b + [c] + d` where no piece has a `c`. */
  lemma SplitThree(a: string, c: char, b: string, d: string)
    requires c !in a && c !in b && c !in d
    ensures Split(a + [c] + (b + [c] + d), c) == [a, b, d]
  {
    SplitAtFirst(a, c, b + [c] + d);
    SplitTwo(b, c, d);
  }

  /** The ISO shape regrouped around its separators. */
  lemma IsoShape(date: string, h: string, mi: string, sec: string, m: string)
    ensures date + "T" + h + ":" + mi + ":" + sec + "." + m + "Z" ==
            date + ['T'] + (h + [':'] + (mi + [':'] + (sec + ['.'] + (m + "Z"))))
  {
  }

  /** Taking apart a string of the ISO shape gives back its pieces. */
  lemma FieldsOfShape(date: string, h: string, mi: string, sec: string, m: string)
    requires 'T' !in date && 'T' !in h && 'T' !in mi && 'T' !in sec && 'T' !in m
    requires ':' !in h && ':' !in mi && ':' !in sec && ':' !in m
    requires '.' !in sec && '.' !in m
    ensures Fields(date + "T" + h + ":" + mi + ":" + sec + "." + m + "Z") == Some(TimeFields(date, h, mi, sec, m + "Z"))
  {
    var frac := sec + ['.'] + (m + "Z");
    var time := h + [':'] + (mi + [':'] + frac);
    IsoShape(date, h, mi, sec, m);
    SplitTwo(date, 'T', time);
    SplitThree(h, ':', mi, frac);
    SplitTwo(sec, '.', m + "Z");
  }

  /** The fields read out of `toISOString()` are the instant's own. */
  lemma FieldsOfIso(t: Instant)
    requires ValidInstant(t)
    ensures Fields(IsoString(t)) ==
            Some(TimeFields(DatePart(t), Pad2(t.hour), Pad2(t.minute), Pad2(t.second), Pad3(t.millis) + "Z"))
  {
    var y, mo, d := Decimal(t.year), Pad2(t.month), Pad2(t.day);
    var h, mi, sec, m := Pad2(t.hour), Pad2(t.minute), Pad2(t.second), Pad3(t.millis);
    DigitsLack(y, 'T'); DigitsLack(mo, 'T'); DigitsLack(d, 'T');
    DigitsLack(h, 'T'); DigitsLack(mi, 'T'); DigitsLack(sec, 'T'); DigitsLack(m, 'T');
    DigitsLack(h, ':'); DigitsLack(mi, ':'); DigitsLack(sec, ':'); DigitsLack(m, ':');
    DigitsLack(sec, '.'); DigitsLack(m, '.');
    assert 'T' !in DatePart(t);
    FieldsOfShape(DatePart(t), h, mi, sec, m);
  }

  // ---------------------------------------------------------------------------
  // The four path builders
  // ---------------------------------------------------------------------------

  /** `HH-MM-SS-<fraction kept>` followed by `tail`. */
  function Stem(f: TimeFields, kept: nat, tail: string): string {
    f.hours + "-" + f.minutes + "-" + f.secs + "-" + Take(f.fraction, kept) + tail
  }

  /** `getEntryPath` of the voice package: up to six characters of the fraction
      (which include the `Z`), then `.md`. */
  function VoiceEntryPath(basePath: string, iso: string): (p: Option<string>)
    ensures p.Some? <==> Fields(iso).Some?
    ensures p.Some? ==> EndsWith(p.value, ".md")
  {
    match Fields(iso)
    case None => None
    case Some(f) => Some(JoinPath(basePath, JoinPath(f.date, Stem(f, 6, ".md"))))
  }

  /** `getEntryPath` of the voice upload route: three characters of the
      fraction, then `Z.md`. */
  function RouteEntryPath(basePath: string, iso: string): (p: Option<string>)
    ensures p.Some? <==> Fields(iso).Some?
    ensures p.Some? ==> EndsWith(p.value, "Z.md")
  {
    match Fields(iso)
    case None => None
    case Some(f) => Some(JoinPath(basePath, JoinPath(f.date, Stem(f, 3, "Z.md"))))
  }

  /** `resolveVisionPaths`: the gallery lives in `.claudia/vision` under the
      home directory. */
  function VisionDir(home: string): (dir: string)
    ensures dir == JoinPath(home, ".claudia/vision")
  {
    var d := JoinPath(home, ".claudia");
    assert home != "" ==> d + "/" + "vision" == home + "/" + ".claudia/vision";
    JoinPath(d, "vision")
  }

  /** `getImagePath` of the vision package: up to six characters of the
      fraction, then `.<format>`. */
  function ImagePath(visionDir: string, iso: string, format: string): (p: Option<string>)
    ensures p.Some? <==> Fields(iso).Some?
    ensures p.Some? ==> EndsWith(p.value, "." + format)
  {
    match Fields(iso)
    case None => None
    case Some(f) => Some(JoinPath(visionDir, JoinPath(f.date, Stem(f, 6, "." + format))))
  }

  /** `getImagePath` of the vision route: three characters of the fraction,
      then `Z.<format>`. */
  function RouteImagePath(basePath: string, iso: string, format: string): (p: Option<string>)
    ensures p.Some? <==> Fields(iso).Some?
    ensures p.Some? ==> EndsWith(p.value, "Z." + format)
  {
    match Fields(iso)
    case None => None
    case Some(f) => Some(JoinPath(basePath, JoinPath(f.date, Stem(f, 3, "Z." + format))))
  }

  /** `HH-MM-SS-mmmZ`, the file name every builder gives an instant. */
  function TimeName(t: Instant): string
    requires ValidInstant(t)
  {
    Pad2(t.hour) + "-" + Pad2(t.minute) + "-" + Pad2(t.second) + "-" + Pad3(t.millis) + "Z"
  }

  /** With a fraction of three characters and the `Z`, keeping six characters
      and keeping three and adding the `Z` back name the same file. */
  lemma StemsAgree(f: TimeFields, m: string, tail: string)
    requires f.fraction == m + "Z" && |m| == 3
    ensures Stem(f, 6, tail) == f.hours + "-" + f.minutes + "-" + f.secs + "-" + m + "Z" + tail
    ensures Stem(f, 3, "Z" + tail) == Stem(f, 6, tail)
  {
    assert Take(f.fraction, 6) == m + "Z";
    assert Take(f.fraction, 3) == m;
  }

  /** Whenever the fraction is three characters and the `Z`, the package's
      and the route's builders agree. */
  lemma BuildersAgree(dir: string, iso: string, m: string, format: string)
    requires Fields(iso).Some? && Fields(iso).value.fraction == m + "Z" && |m| == 3
    ensures RouteEntryPath(dir, iso) == VoiceEntryPath(dir, iso)
    ensures RouteImagePath(dir, iso, format) == ImagePath(dir, iso, format)
  {
    var f := Fields(iso).value;
    StemsAgree(f, m, ".md");
    assert "Z" + ".md" == "Z.md";
    StemsAgree(f, m, "." + format);
    assert "Z" + ("." + format) == "Z." + format;
  }

  /** For a real instant, both journal builders give `<date>/HH-MM-SS-mmmZ.md`
      under the base path: the package keeps `mmmZ` whole, the route keeps
      `mmm` and adds the `Z` back. */
  lemma EntryPathsAgree(basePath: string, t: Instant)
    requires ValidInstant(t)
    ensures VoiceEntryPath(basePath, IsoString(t)) == Some(JoinPath(basePath, JoinPath(DatePart(t), TimeName(t) + ".md")))
    ensures RouteEntryPath(basePath, IsoString(t)) == VoiceEntryPath(basePath, IsoString(t))
  {
    FieldsOfIso(t);
    var f := Fields(IsoString(t)).value;
    StemsAgree(f, Pad3(t.millis), ".md");
    BuildersAgree(basePath, IsoString(t), Pad3(t.millis), "");
  }

  /** For a real instant, both image builders give
      `<date>/HH-MM-SS-mmmZ.<format>` under the base directory. */
  lemma ImagePathsAgree(dir: string, t: Instant, format: string)
    requires ValidInstant(t)
    ensures ImagePath(dir, IsoString(t), format) == Some(JoinPath(dir, JoinPath(DatePart(t), TimeName(t) + ("." + format))))
    ensures RouteImagePath(dir, IsoString(t), format) == ImagePath(dir, IsoString(t), format)
  {
    FieldsOfIso(t);
    var f := Fields(IsoString(t)).value;
    StemsAgree(f, Pad3(t.millis), "." + format);
    BuildersAgree(dir, IsoString(t), Pad3(t.millis), format);
  }
}
