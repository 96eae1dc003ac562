/** Semantic versions: src/common/version.c. */
module SemVer {
  import opened Prelude
  import opened Decimal

  datatype Version = Version(major: nat, minor: nat, patch: nat)

  const MAX_PART := 999999
  const MAX_VERSION_STR := 32

  /** `parse_part` at position `i`: a digit first, then the run that `strtol` reads, up to a limit. */
  function ParsePart(s: string, i: nat): (part: Option<(nat, nat)>)
    requires i <= |s|
    ensures part.Some? ==> i < part.value.1 <= |s|
  {
    if i == |s| || !IsDigit(s[i]) then None
    else
      var end := DigitsEnd(s, i);
      assert end > i;
      if Value(s[i..end]) > MAX_PART then None else Some((Value(s[i..end]), end))
  }

  /** `ver_parse`: three parts separated by dots, and nothing after the last one. */
  function Parse(s: string): (v: Option<Version>) {
    var major := ParsePart(s, 0);
    if major.None? || major.value.1 == |s| || s[major.value.1] != '.' then None
    else
      var minor := ParsePart(s, major.value.1 + 1);
      if minor.None? || minor.value.1 == |s| || s[minor.value.1] != '.' then None
      else
        var patch := ParsePart(s, minor.value.1 + 1);
        if patch.None? || patch.value.1 != |s| then None
        else Some(Version(major.value.0, minor.value.0, patch.value.0))
  }

  predicate Valid(s: string) { Parse(s).Some? }

  /** `ver_compare`: the sign of the first difference. */
  function Compare(a: Version, b: Version): int {
    if a.major != b.major then (if a.major > b.major then 1 else -1)
    else if a.minor != b.minor then (if a.minor > b.minor then 1 else -1)
    else if a.patch != b.patch then (if a.patch > b.patch then 1 else -1)
    else 0
  }

  /** `ver_compare_text`. */
  function CompareText(a: string, b: string): Option<int> {
    var va, vb := Parse(a), Parse(b);
    if va.None? || vb.None? then None else Some(Compare(va.value, vb.value))
  }

  /** The update decision: `a` is a valid version older than `b`. */
  predicate Older(a: string, b: string) {
    CompareText(a, b) == Some(-1)
  }

  /** A numeral that `parse_part` accepts; leading zeros are fine. */
  ghost predicate IsPart(s: string) {
    |s| > 0 && AllDigits(s) && Value(s) <= 999999
  }

  lemma PartAt(s: string, i: nat, end: nat)
    requires i <= end <= |s| && IsPart(s[i..end]) && (end == |s| || !IsDigit(s[end]))
    ensures ParsePart(s, i) == Some((Value(s[i..end]), end))
  {
    hide Value;
    assert s[i..end][0] == s[i];
    DigitsEndIs(s, i, end);
  }

  lemma DottedSlices(a: string, b: string, c: string)
    ensures var s := a + "." + b + "." + c;
      var i, j := |a|, |a| + 1 + |b|;
      && |s| == j + 1 + |c| && s[i] == '.' && s[j] == '.'
      && s[0..i] == a && s[i + 1..j] == b && s[j + 1..|s|] == c
  {
    var head := a + "." + b;
    assert head[|a| + 1..] == b;
    assert (head + "." + c)[|a| + 1..|head|] == head[|a| + 1..];
  }

  lemma ParseIs(s: string, major: (nat, nat), minor: (nat, nat), patch: (nat, nat))
    requires ParsePart(s, 0) == Some(major) && major.1 < |s| && s[major.1] == '.'
    requires ParsePart(s, major.1 + 1) == Some(minor) && minor.1 < |s| && s[minor.1] == '.'
    requires ParsePart(s, minor.1 + 1) == Some(patch) && patch.1 == |s|
    ensures Parse(s) == Some(Version(major.0, minor.0, patch.0))
  {
    hide ParsePart;
  }

  /** A text whose slices are three numerals, with dots between them. */
  lemma ParseOfSlices(s: string, i: nat, j: nat)
    requires i < j < |s| && s[i] == '.' && s[j] == '.'
    requires IsPart(s[0..i]) && IsPart(s[i + 1..j]) && IsPart(s[j + 1..|s|])
    ensures Parse(s) == Some(Version(Value(s[0..i]), Value(s[i + 1..j]), Value(s[j + 1..|s|])))
  {
    hide Parse, ParsePart, IsPart, Value;
    PartAt(s, 0, i);
    PartAt(s, i + 1, j);
    PartAt(s, j + 1, |s|);
    PartHasDigits(s[0..i]);
    PartHasDigits(s[i + 1..j]);
    PartHasDigits(s[j + 1..|s|]);
    ParseIs(s, (Value(s[0..i]), i), (Value(s[i + 1..j]), j), (Value(s[j + 1..|s|]), |s|));
  }

  lemma PartHasDigits(part: string)
    requires IsPart(part)
    ensures AllDigits(part)
  {
  }

  /** Three numerals joined by dots parse to their values. */
  lemma ParseOfParts(a: string, b: string, c: string)
    requires IsPart(a) && IsPart(b) && IsPart(c)
    ensures Parse(a + "." + b + "." + c) == Some(Version(Value(a), Value(b), Value(c)))
  {
    hide Parse, IsPart, Value, AllDigits;
    DottedSlices(a, b, c);
    ParseOfSlices(a + "." + b + "." + c, |a|, |a| + 1 + |b|);
  }

  lemma OneDigitParts()
    ensures IsPart("0") && Value("0") == 0 && IsPart("1") && Value("1") == 1
  {
    assert "0"[..0] == "" && "1"[..0] == "";
  }

  lemma SmallVersions()
    ensures Parse("0.0.0") == Some(Version(0, 0, 0)) && Parse("1.0.0") == Some(Version(1, 0, 0))
  {
    hide Parse, IsPart, Value, AllDigits;
    OneDigitParts();
    ParseOfParts("0", "0", "0");
    ParseOfParts("1", "0", "0");
    assert "0" + "." + "0" + "." + "0" == "0.0.0";
    assert "1" + "." + "0" + "." + "0" == "1.0.0";
  }

  /** A text is accepted exactly when it is three numerals joined by dots. */
  lemma ValidIffParts(s: string)
    ensures Valid(s) <==> exists a, b, c :: IsPart(a) && IsPart(b) && IsPart(c) && s == a + "." + b + "." + c
  {
    if Valid(s) {
      var i := ParsePart(s, 0).value.1;
      var j := ParsePart(s, i + 1).value.1;
      var a, b, c := s[..i], s[i + 1..j], s[j + 1..];
      assert s[0..i] == a && s[j + 1..|s|] == c;
      assert s == a + "." + b + "." + c;
      assert IsPart(a) && IsPart(b) && IsPart(c);
    }
    forall a, b, c | IsPart(a) && IsPart(b) && IsPart(c) && s == a + "." + b + "." + c ensures Valid(s) {
      ParseOfParts(a, b, c);
    }
  }

  lemma OnlyDigitsAndDots(v: string)
    requires Valid(v)
    ensures |v| > 0 && forall i | 0 <= i < |v| :: IsDigit(v[i]) || v[i] == '.'
  {
    ValidIffParts(v);
    var a, b, c :| IsPart(a) && IsPart(b) && IsPart(c) && v == a + "." + b + "." + c;
    assert v == a + ("." + (b + ("." + c)));
  }

  /** The comparison is the numeric lexicographic order: total, and strict where it is not zero. */
  lemma CompareIsOrder(a: Version, b: Version, c: Version)
    ensures Compare(a, b) == 0 <==> a == b
    ensures Compare(a, b) == -Compare(b, a)
    ensures Compare(a, b) < 0 && Compare(b, c) <= 0 ==> Compare(a, c) < 0
    ensures Compare(a, b) < 0 <==>
      a.major < b.major || (a.major == b.major && (a.minor < b.minor || (a.minor == b.minor && a.patch < b.patch)))
  {
  }

  // ---- The comparison of texts, by the numbers in them ----

  /** The text is three numerals joined by dots, with these values. */
  ghost predicate Denotes(s: string, major: nat, minor: nat, patch: nat) {
    exists a, b, c :: Numeral(a, major) && Numeral(b, minor) && Numeral(c, patch) && s == a + "." + b + "." + c
  }

  ghost predicate Numeral(s: string, n: nat) {
    IsPart(s) && Value(s) == n
  }

  ghost predicate IsVersion(s: string) {
    exists x: nat, y: nat, z: nat :: Denotes(s, x, y, z)
  }

  /** Both texts are versions, and the numbers of the first are lexicographically below those of the second. */
  ghost predicate Below(s: string, t: string) {
    exists x: nat, y: nat, z: nat, u: nat, v: nat, w: nat ::
      Denotes(s, x, y, z) && Denotes(t, u, v, w) && (x < u || (x == u && (y < v || (y == v && z < w))))
  }

  lemma DenotesIffParsed(s: string, x: nat, y: nat, z: nat)
    ensures Denotes(s, x, y, z) <==> Parse(s) == Some(Version(x, y, z))
  {
    hide Parse, IsPart, Value;
    if Denotes(s, x, y, z) {
      var a, b, c :| Numeral(a, x) && Numeral(b, y) && Numeral(c, z) && s == a + "." + b + "." + c;
      ParseOfParts(a, b, c);
    }
    if Parse(s) == Some(Version(x, y, z)) {
      ValidIffParts(s);
      var a, b, c :| IsPart(a) && IsPart(b) && IsPart(c) && s == a + "." + b + "." + c;
      PartHasDigits(a);
      PartHasDigits(b);
      PartHasDigits(c);
      ParseOfParts(a, b, c);
      assert Numeral(a, x) && Numeral(b, y) && Numeral(c, z);
    }
  }

  lemma ValidIffVersion(s: string)
    ensures Valid(s) <==> IsVersion(s)
  {
    hide Parse, Denotes;
    forall x: nat, y: nat, z: nat ensures Denotes(s, x, y, z) <==> Parse(s) == Some(Version(x, y, z)) {
      DenotesIffParsed(s, x, y, z);
    }
    if Parse(s).Some? {
      var v := Parse(s).value;
      assert Denotes(s, v.major, v.minor, v.patch);
    }
  }

  lemma ComparedAsParsed(s: string, t: string, v: Version, w: Version)
    requires Parse(s) == Some(v) && Parse(t) == Some(w)
    ensures Older(s, t) <==>
      v.major < w.major || (v.major == w.major && (v.minor < w.minor || (v.minor == w.minor && v.patch < w.patch)))
    ensures CompareText(s, t) == Some(0) <==> v == w
  {
    hide Parse;
  }

  /** The decision on two texts is the decision on the numbers that are written in them. */
  lemma OlderIffNumbers(a: string, b: string, c: string, d: string, e: string, f: string,
                        x: nat, y: nat, z: nat, u: nat, v: nat, w: nat)
    requires Numeral(a, x) && Numeral(b, y) && Numeral(c, z) && Numeral(d, u) && Numeral(e, v) && Numeral(f, w)
    ensures var (s, t) := (a + "." + b + "." + c, d + "." + e + "." + f);
      && (Older(s, t) <==> x < u || (x == u && (y < v || (y == v && z < w))))
      && (CompareText(s, t) == Some(0) <==> x == u && y == v && z == w)
  {
    hide Parse, IsPart, Value, Older, CompareText;
    ParseOfParts(a, b, c);
    ParseOfParts(d, e, f);
    ComparedAsParsed(a + "." + b + "." + c, d + "." + e + "." + f, Version(x, y, z), Version(u, v, w));
  }

  /** Numbers, not characters, are compared, and leading zeros do not count. */
  lemma ComparisonExamples()
    ensures Older("1.4.0", "1.5.0") && Older("1.9.0", "1.10.0") && !Older("2.0.0", "1.9.9")
    ensures CompareText("01.2.3", "1.2.3") == Some(0)
  {
    hide Parse, Older, CompareText, IsPart;
    SmallNumerals();
    OlderIffNumbers("1", "4", "0", "1", "5", "0", 1, 4, 0, 1, 5, 0);
    OlderIffNumbers("1", "9", "0", "1", "10", "0", 1, 9, 0, 1, 10, 0);
    OlderIffNumbers("2", "0", "0", "1", "9", "9", 2, 0, 0, 1, 9, 9);
    OlderIffNumbers("01", "2", "3", "1", "2", "3", 1, 2, 3, 1, 2, 3);
    hide Numeral;
    assert "1" + "." + "4" + "." + "0" == "1.4.0" && "1" + "." + "5" + "." + "0" == "1.5.0";
    assert "1" + "." + "9" + "." + "0" == "1.9.0" && "1" + "." + "10" + "." + "0" == "1.10.0";
    assert "2" + "." + "0" + "." + "0" == "2.0.0" && "1" + "." + "9" + "." + "9" == "1.9.9";
    assert "01" + "." + "2" + "." + "3" == "01.2.3" && "1" + "." + "2" + "." + "3" == "1.2.3";
  }

  lemma OneDigit(d: nat)
    requires d < 10
    ensures Numeral([Digit(d)], d)
  {
    assert [Digit(d)][..0] == "";
  }

  lemma SmallNumerals()
    ensures Numeral("0", 0) && Numeral("1", 1) && Numeral("2", 2) && Numeral("3", 3) && Numeral("4", 4)
    ensures Numeral("5", 5) && Numeral("9", 9) && Numeral("10", 10) && Numeral("01", 1)
  {
    OneDigit(0);
    OneDigit(1);
    OneDigit(2);
    OneDigit(3);
    OneDigit(4);
    OneDigit(5);
    OneDigit(9);
    assert "10"[..1] == "1" && "01"[..1] == "0" && "1"[..0] == "" && "0"[..0] == "";
  }

  /** The same for any two texts: which are compared at all, which are older, which are the same version. */
  lemma ComparedByNumbers(s: string, t: string)
    ensures CompareText(s, t).None? <==> !IsVersion(s) || !IsVersion(t)
    ensures Older(s, t) <==> Below(s, t)
    ensures CompareText(s, t) == Some(0) <==>
      exists x: nat, y: nat, z: nat :: Denotes(s, x, y, z) && Denotes(t, x, y, z)
    ensures CompareText(s, t).Some? && CompareText(s, t).value > 0 <==> Below(t, s)
  {
    hide Parse, Denotes;
    forall x: nat, y: nat, z: nat ensures Denotes(s, x, y, z) <==> Parse(s) == Some(Version(x, y, z)) {
      DenotesIffParsed(s, x, y, z);
    }
    forall x: nat, y: nat, z: nat ensures Denotes(t, x, y, z) <==> Parse(t) == Some(Version(x, y, z)) {
      DenotesIffParsed(t, x, y, z);
    }
    if Parse(s).Some? {
      var v := Parse(s).value;
      assert Denotes(s, v.major, v.minor, v.patch);
    }
    if Parse(t).Some? {
      var v := Parse(t).value;
      assert Denotes(t, v.major, v.minor, v.patch);
    }
  }

  /** Different texts may be the same version: the comparison is numeric, so leading zeros do not matter. */
  lemma OlderIsTransitive(a: string, b: string, c: string)
    requires Older(a, b) && Older(b, c)
    ensures Older(a, c)
    ensures !Older(a, a) && !Older(b, a)
  {
    CompareIsOrder(Parse(a).value, Parse(b).value, Parse(c).value);
  }
}
