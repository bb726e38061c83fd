/** The pure helpers of `utils.js`: clock formatting, firmware version
    comparison, order-preserving de-duplication, client-id naming, the layout
    breakpoint, timezone strings and the password rule of form validation. */
module Utils {
  import opened Wrappers
  import opened Text
  import opened Json
  import Registry

  // ---------------------------------------------------------------------
  // sec2time / s2mns

  /** `sec2time(n)`: hours, minutes and seconds, each padded to two digits;
      `null` and `undefined` (None) show as "00:00:00". */
  function Sec2Time(seconds: Option<nat>): string
  {
    match seconds
    case None => "00:00:00"
    case Some(n) => Pad2(n / 3600) + ":" + Pad2(n % 3600 / 60) + ":" + Pad2(n % 60)
  }

  /** Reads a clock "H…H:MM:SS" back as a number of seconds. */
  function ClockSeconds(t: string): Option<nat>
  {
    if |t| < 8 || t[|t| - 3] != ':' || t[|t| - 6] != ':' then None
    else FieldsSeconds(t[..|t| - 6], t[|t| - 5..|t| - 3], t[|t| - 2..])
  }

  /** The seconds denoted by hour, minute and second fields, when each is a
      numeral and minutes and seconds are below 60. */
  function FieldsSeconds(h: string, m: string, s: string): Option<nat>
  {
    if AllDigits(h) && AllDigits(m) && AllDigits(s) && DigitsValue(m) < 60 && DigitsValue(s) < 60
    then Some(DigitsValue(h) * 3600 + DigitsValue(m) * 60 + DigitsValue(s))
    else None
  }

  /** A clock assembled from fields reads back through those fields. */
  lemma ClockOfFields(hh: string, mm: string, ss: string)
    requires |hh| >= 2 && |mm| == 2 && |ss| == 2
    ensures ClockSeconds(hh + ":" + mm + ":" + ss) == FieldsSeconds(hh, mm, ss)
  {
    var t := hh + ":" + mm + ":" + ss;
    var n := |hh|;
    assert |t| == n + 6 && t[n + 3] == ':' && t[n] == ':';
    assert t[..|t| - 6] == hh;
    assert t[|t| - 5..|t| - 3] == mm;
    assert t[|t| - 2..] == ss;
  }

  /** Padded fields read back as the numbers they pad. */
  lemma PaddedFields(h: nat, m: nat, s: nat)
    requires m < 60 && s < 60
    ensures FieldsSeconds(Pad2(h), Pad2(m), Pad2(s)) == Some(h * 3600 + m * 60 + s)
  {
    Pad2Digits(h);
    Pad2Digits(m);
    Pad2Digits(s);
  }

  lemma MinuteRemainder(k: nat, s: nat)
    requires s < 60
    ensures (60 * k + s) % 60 == s
  {
  }

  lemma ClockSplit(n: nat)
    ensures n % 3600 / 60 < 60 && n % 60 < 60
    ensures n == n / 3600 * 3600 + n % 3600 / 60 * 60 + n % 60
  {
    var q, r := n / 3600, n % 3600;
    var m, s := r / 60, r % 60;
    assert r == 60 * m + s && m < 60;
    MinuteRemainder(60 * q + m, s);
    assert n == 60 * (60 * q + m) + s;
  }

  /** The clock reads back as exactly the given number of seconds. */
  lemma Sec2TimeRoundTrip(n: nat)
    ensures ClockSeconds(Sec2Time(Some(n))) == Some(n)
  {
    var h, m, s := n / 3600, n % 3600 / 60, n % 60;
    ClockSplit(n);
    assert Sec2Time(Some(n)) == Pad2(h) + ":" + Pad2(m) + ":" + Pad2(s);
    Pad2Digits(h);
    Pad2Digits(m);
    Pad2Digits(s);
    ClockOfFields(Pad2(h), Pad2(m), Pad2(s));
    PaddedFields(h, m, s);
  }

  /** Below 100 hours the clock has eight characters; beyond, the hours
      field grows. */
  lemma Sec2TimeWidth(n: nat)
    ensures n < 360000 ==> |Sec2Time(Some(n))| == 8
    ensures |Sec2Time(Some(n))| >= 8
  {
    var h, m, s := n / 3600, n % 3600 / 60, n % 60;
    assert Sec2Time(Some(n)) == Pad2(h) + ":" + Pad2(m) + ":" + Pad2(s);
    Pad2Digits(h);
    Pad2Digits(m);
    Pad2Digits(s);
  }

  /** The clocks the formatter shows for a few inputs. */
  lemma Sec2TimeExamples()
    ensures Sec2Time(Some(125)) == "00:02:05"
    ensures Sec2Time(Some(3661)) == "01:01:01"
    ensures Sec2Time(Some(36000)) == "10:00:00"
    ensures Sec2Time(None) == "00:00:00" == Sec2Time(Some(0))
  {
    assert Pad2(0) == "00" && Pad2(1) == "01" && Pad2(2) == "02" && Pad2(5) == "05";
    assert Pad2(10) == "10" by {
      assert NatToString(1) == "1";
    }
    assert 125 / 3600 == 0 && 125 % 3600 / 60 == 2 && 125 % 60 == 5;
    assert 3661 / 3600 == 1 && 3661 % 3600 / 60 == 1 && 3661 % 60 == 1;
    assert 36000 / 3600 == 10 && 36000 % 3600 / 60 == 0 && 36000 % 60 == 0;
  }

  /** `s2mns(n)`: the same clock, computed through whole minutes. */
  function S2mns(n: nat): string
  {
    var minutes := n / 60;
    Pad2(minutes / 60) + ":" + Pad2(minutes % 60) + ":" + Pad2(n % 60)
  }

  /** `s2mns` and `sec2time` agree on every number of seconds. */
  lemma S2mnsAgreesWithSec2Time(n: nat)
    ensures S2mns(n) == Sec2Time(Some(n))
  {
    var minutes, s := n / 60, n % 60;
    var q, r := minutes / 60, minutes % 60;
    assert n == 3600 * q + (60 * r + s) && 0 <= 60 * r + s < 3600;
    assert n / 3600 == q && n % 3600 == 60 * r + s;
    assert (60 * r + s) / 60 == r;
  }

  // ---------------------------------------------------------------------
  // compareVersion

  /** One dot-separated component: its numeric value; a component that is
      not a plain numeral reads as 0. */
  function ComponentValue(part: string): nat
  {
    if AllDigits(part) then DigitsValue(part) else 0
  }

  function ComponentValues(parts: seq<string>): (values: seq<nat>)
    ensures |values| == |parts|
  {
    if parts == [] then [] else [ComponentValue(parts[0])] + ComponentValues(parts[1..])
  }

  /** A version string without its leading "v". */
  function StripV(version: string): string
  {
    if StartsWith(version, "v") then version[1..] else version
  }

  function VersionParts(version: string): seq<nat>
  {
    ComponentValues(Split(StripV(version), '.'))
  }

  /** Component-wise comparison; when one list is a prefix of the other the
      longer one is newer. */
  function CompareParts(a: seq<nat>, b: seq<nat>): (r: int)
    ensures -1 <= r <= 1
  {
    if a == [] && b == [] then 0
    else if a == [] then -1
    else if b == [] then 1
    else if a[0] > b[0] then 1
    else if a[0] < b[0] then -1
    else CompareParts(a[1..], b[1..])
  }

  /** `compareVersion(last, old)`, with `old` named `previous`: 1 when
      `last` is newer, -1 when older, 0 when equal. Both must be strings and
      `previous` must carry the "v" prefix, otherwise the answer is 0. */
  function CompareVersion(last: Json, previous: Json): (r: int)
    ensures -1 <= r <= 1
    ensures !last.Str? || !previous.Str? ==> r == 0
    ensures previous.Str? && !StartsWith(previous.s, "v") ==> r == 0
  {
    if last.Str? && previous.Str? && StartsWith(previous.s, "v")
    then CompareParts(VersionParts(last.s), VersionParts(previous.s))
    else 0
  }

  lemma {:induction false} ComparePartsAntisymmetric(a: seq<nat>, b: seq<nat>)
    ensures CompareParts(a, b) == -CompareParts(b, a)
  {
    if a != [] && b != [] && a[0] == b[0] {
      ComparePartsAntisymmetric(a[1..], b[1..]);
    }
  }

  lemma {:induction false} ComparePartsZero(a: seq<nat>, b: seq<nat>)
    ensures CompareParts(a, b) == 0 <==> a == b
  {
    if a != [] && b != [] && a[0] == b[0] {
      ComparePartsZero(a[1..], b[1..]);
      assert a == [a[0]] + a[1..] && b == [b[0]] + b[1..];
    }
  }

  lemma {:induction false} ComparePartsTransitive(a: seq<nat>, b: seq<nat>, c: seq<nat>)
    requires CompareParts(a, b) == 1 && CompareParts(b, c) == 1
    ensures CompareParts(a, c) == 1
  {
    if a != [] && b != [] && c != [] && a[0] == b[0] && b[0] == c[0] {
      ComparePartsTransitive(a[1..], b[1..], c[1..]);
    }
  }

  /** Between two "v"-prefixed versions the comparison is a total order:
      swapping the arguments negates it, 0 means the same components, and
      "newer than" is transitive. */
  lemma CompareVersionOrder(a: string, b: string, c: string)
    requires StartsWith(a, "v") && StartsWith(b, "v") && StartsWith(c, "v")
    ensures CompareVersion(Str(a), Str(b)) == -CompareVersion(Str(b), Str(a))
    ensures CompareVersion(Str(a), Str(b)) == 0 <==> VersionParts(a) == VersionParts(b)
    ensures CompareVersion(Str(a), Str(b)) == 1 && CompareVersion(Str(b), Str(c)) == 1
            ==> CompareVersion(Str(a), Str(c)) == 1
  {
    ComparePartsAntisymmetric(VersionParts(a), VersionParts(b));
    ComparePartsZero(VersionParts(a), VersionParts(b));
    if CompareVersion(Str(a), Str(b)) == 1 && CompareVersion(Str(b), Str(c)) == 1 {
      ComparePartsTransitive(VersionParts(a), VersionParts(b), VersionParts(c));
    }
  }

  /** The leading "v" of `last` is optional: "1.2.3" and "v1.2.3" compare
      alike against any `previous`. */
  lemma CompareVersionIgnoresLeadingV(last: string, previous: Json)
    requires !StartsWith(last, "v")
    ensures CompareVersion(Str("v" + last), previous) == CompareVersion(Str(last), previous)
  {
    assert ("v" + last)[1..] == last;
  }

  /** An extra component makes a version newer: "v1.0.0.1" is newer than
      "v1.0.0", and "v1.0" older than "v1.0.0". */
  lemma {:induction false} LongerVersionIsNewer(a: seq<nat>, extra: seq<nat>)
    requires extra != []
    ensures CompareParts(a + extra, a) == 1 && CompareParts(a, a + extra) == -1
  {
    if a != [] {
      assert (a + extra)[1..] == a[1..] + extra;
      LongerVersionIsNewer(a[1..], extra);
    }
  }

  /** The first differing component decides: the version whose component
      is larger there is newer, the other older. */
  lemma {:induction false} FirstDifferenceDecides(a: seq<nat>, b: seq<nat>, k: nat)
    requires k < |a| && k < |b| && a[..k] == b[..k] && a[k] > b[k]
    ensures CompareParts(a, b) == 1 && CompareParts(b, a) == -1
  {
    if k > 0 {
      assert a[0] == a[..k][0] == b[..k][0] == b[0];
      assert a[1..][..k - 1] == a[..k][1..] && b[1..][..k - 1] == b[..k][1..];
      FirstDifferenceDecides(a[1..], b[1..], k - 1);
    }
  }

  /** The decimal numerals of a list of numbers. */
  function Numerals(ns: seq<nat>): (parts: seq<string>)
    ensures |parts| == |ns|
  {
    if ns == [] then [] else [NatToString(ns[0])] + Numerals(ns[1..])
  }

  /** The version string with components `ns`, such as "1.1.0". */
  function VersionString(ns: seq<nat>): string
    requires ns != []
  {
    Join(Numerals(ns), '.')
  }

  lemma {:induction false} NumeralsRoundTrip(ns: seq<nat>)
    ensures forall i :: 0 <= i < |ns| ==> '.' !in Numerals(ns)[i]
    ensures ComponentValues(Numerals(ns)) == ns
  {
    if ns != [] {
      NumeralsRoundTrip(ns[1..]);
      NatToStringRoundTrip(ns[0]);
      assert ns == [ns[0]] + ns[1..];
    }
  }

  /** Reading a version string back gives its components, with or without
      the leading "v". */
  lemma VersionPartsRoundTrip(ns: seq<nat>)
    requires ns != []
    ensures VersionParts(VersionString(ns)) == ns
    ensures VersionParts("v" + VersionString(ns)) == ns
  {
    NumeralsRoundTrip(ns);
    SplitJoin(Numerals(ns), '.');
    var s := VersionString(ns);
    assert s[0] == Numerals(ns)[0][0];
    assert ("v" + s)[1..] == s;
  }

  /** On written-out versions, `compareVersion` is the component order,
      whether or not `last` carries the leading "v". */
  lemma CompareVersionStrings(last: string, previous: string, a: seq<nat>, b: seq<nat>)
    requires a != [] && b != []
    requires last == VersionString(a) || last == "v" + VersionString(a)
    requires previous == "v" + VersionString(b)
    ensures CompareVersion(Str(last), Str(previous)) == CompareParts(a, b)
  {
    VersionPartsRoundTrip(a);
    VersionPartsRoundTrip(b);
  }

  /** A leading component adds its digit and a "." in front. */
  lemma VersionStringLead(d: nat, ns: seq<nat>)
    requires d < 10 && ns != []
    ensures VersionString([d] + ns) == [DigitChar(d), '.'] + VersionString(ns)
  {
    assert ([d] + ns)[1..] == ns;
  }

  lemma VersionStringOne(d: nat)
    requires d < 10
    ensures VersionString([d]) == [DigitChar(d)]
  {
  }

  /** A three-component version of single digits, spelled out. */
  lemma ThreePartVersion(x: nat, y: nat, z: nat)
    requires x < 10 && y < 10 && z < 10
    ensures VersionString([x, y, z]) == [DigitChar(x), '.', DigitChar(y), '.', DigitChar(z)]
  {
    VersionStringOne(z);
    VersionStringLead(y, [z]);
    VersionStringLead(x, [y, z]);
    assert [y] + [z] == [y, z] && [x] + [y, z] == [x, y, z];
  }

  /** The tested comparisons, one lemma each: a written-out version is read
      back through `CompareVersionStrings`, and the component lists compare
      by `FirstDifferenceDecides`, `ComparePartsZero` or
      `LongerVersionIsNewer`. */
  lemma VersionNewer110()
    ensures CompareVersion(Str("1.1.0"), Str("v1.0.0")) == 1
  {
    ThreePartVersion(1, 1, 0);
    ThreePartVersion(1, 0, 0);
    FirstDifferenceDecides([1, 1, 0], [1, 0, 0], 1);
    CompareVersionStrings("1.1.0", "v1.0.0", [1, 1, 0], [1, 0, 0]);
  }

  lemma VersionNewer200()
    ensures CompareVersion(Str("2.0.0"), Str("v1.9.9")) == 1
  {
    ThreePartVersion(2, 0, 0);
    ThreePartVersion(1, 9, 9);
    FirstDifferenceDecides([2, 0, 0], [1, 9, 9], 0);
    CompareVersionStrings("2.0.0", "v1.9.9", [2, 0, 0], [1, 9, 9]);
  }

  lemma VersionNewer101()
    ensures CompareVersion(Str("v1.0.1"), Str("v1.0.0")) == 1
  {
    ThreePartVersion(1, 0, 1);
    ThreePartVersion(1, 0, 0);
    FirstDifferenceDecides([1, 0, 1], [1, 0, 0], 2);
    CompareVersionStrings("v1.0.1", "v1.0.0", [1, 0, 1], [1, 0, 0]);
  }

  lemma VersionOlder100()
    ensures CompareVersion(Str("1.0.0"), Str("v1.1.0")) == -1
  {
    ThreePartVersion(1, 0, 0);
    ThreePartVersion(1, 1, 0);
    FirstDifferenceDecides([1, 1, 0], [1, 0, 0], 1);
    CompareVersionStrings("1.0.0", "v1.1.0", [1, 0, 0], [1, 1, 0]);
  }

  lemma VersionOlderMajor()
    ensures CompareVersion(Str("v1.0.0"), Str("v2.0.0")) == -1
  {
    ThreePartVersion(1, 0, 0);
    ThreePartVersion(2, 0, 0);
    FirstDifferenceDecides([2, 0, 0], [1, 0, 0], 0);
    CompareVersionStrings("v1.0.0", "v2.0.0", [1, 0, 0], [2, 0, 0]);
  }

  lemma VersionEqualV()
    ensures CompareVersion(Str("v1.0.0"), Str("v1.0.0")) == 0
  {
    ThreePartVersion(1, 0, 0);
    ComparePartsZero([1, 0, 0], [1, 0, 0]);
    CompareVersionStrings("v1.0.0", "v1.0.0", [1, 0, 0], [1, 0, 0]);
  }

  lemma VersionEqualBare()
    ensures CompareVersion(Str("1.2.3"), Str("v1.2.3")) == 0
  {
    ThreePartVersion(1, 2, 3);
    ComparePartsZero([1, 2, 3], [1, 2, 3]);
    CompareVersionStrings("1.2.3", "v1.2.3", [1, 2, 3], [1, 2, 3]);
  }

  lemma VersionLongerNewer()
    ensures CompareVersion(Str("v1.0.0.1"), Str("v1.0.0")) == 1
  {
    ThreePartVersion(0, 0, 1);
    VersionStringLead(1, [0, 0, 1]);
    assert [1] + [0, 0, 1] == [1, 0, 0, 1];
    ThreePartVersion(1, 0, 0);
    assert [1, 0, 0] + [1] == [1, 0, 0, 1];
    LongerVersionIsNewer([1, 0, 0], [1]);
    CompareVersionStrings("v1.0.0.1", "v1.0.0", [1, 0, 0, 1], [1, 0, 0]);
  }

  lemma VersionShorterOlder()
    ensures CompareVersion(Str("v1.0"), Str("v1.0.0")) == -1
  {
    VersionStringOne(0);
    VersionStringLead(1, [0]);
    assert [1] + [0] == [1, 0];
    ThreePartVersion(1, 0, 0);
    assert [1, 0] + [0] == [1, 0, 0];
    LongerVersionIsNewer([1, 0], [0]);
    CompareVersionStrings("v1.0", "v1.0.0", [1, 0], [1, 0, 0]);
  }

  /** The tested comparisons: a newer `last` gives 1, an older one -1, an
      equal one 0, and an extra component counts as newer. */
  lemma CompareVersionExamples()
    ensures CompareVersion(Str("1.1.0"), Str("v1.0.0")) == 1
    ensures CompareVersion(Str("2.0.0"), Str("v1.9.9")) == 1
    ensures CompareVersion(Str("v1.0.1"), Str("v1.0.0")) == 1
    ensures CompareVersion(Str("1.0.0"), Str("v1.1.0")) == -1
    ensures CompareVersion(Str("v1.0.0"), Str("v2.0.0")) == -1
    ensures CompareVersion(Str("v1.0.0"), Str("v1.0.0")) == 0
    ensures CompareVersion(Str("1.2.3"), Str("v1.2.3")) == 0
    ensures CompareVersion(Str("v1.0.0.1"), Str("v1.0.0")) == 1
    ensures CompareVersion(Str("v1.0"), Str("v1.0.0")) == -1
  {
    VersionNewer110();
    VersionNewer200();
    VersionNewer101();
    VersionOlder100();
    VersionOlderMajor();
    VersionEqualV();
    VersionEqualBare();
    VersionLongerNewer();
    VersionShorterOlder();
  }

  // ---------------------------------------------------------------------
  // dedup / removeDuplicateObjects

  /** The index of the first element of `s` whose key is `k`; `|s|` when no
      element has that key. */
  function FirstIndexOfKey<T, K(==)>(s: seq<T>, key: T -> K, k: K): (i: nat)
    ensures i <= |s|
    ensures i < |s| ==> key(s[i]) == k
    ensures forall j :: 0 <= j < i ==> key(s[j]) != k
  {
    if s == [] then 0
    else if key(s[0]) == k then 0
    else 1 + FirstIndexOfKey(s[1..], key, k)
  }

  lemma FirstIndexExtend<T, K>(p: seq<T>, x: T, key: T -> K, k: K)
    ensures FirstIndexOfKey(p + [x], key, k) ==
      if FirstIndexOfKey(p, key, k) < |p| then FirstIndexOfKey(p, key, k)
      else if key(x) == k then |p| else |p| + 1
  {
    var s := p + [x];
    var i, i0 := FirstIndexOfKey(s, key, k), FirstIndexOfKey(p, key, k);
    if i0 < |p| {
      assert key(s[i0]) == k;
    } else if key(x) == k {
      assert key(s[|p|]) == k;
    }
  }

  /** Keeps, in input order, the first element for each distinct key: the
      filter both `dedup` and `removeDuplicateObjects` perform. */
  function KeepFirstBy<T, K(==)>(s: seq<T>, key: T -> K): seq<T>
  {
    if s == [] then []
    else
      var kept := KeepFirstBy(s[..|s| - 1], key);
      var x := s[|s| - 1];
      if FirstIndexOfKey(kept, key, key(x)) < |kept| then kept else kept + [x]
  }

  /** No two elements of `r` share a key. */
  ghost predicate DistinctKeys<T, K>(r: seq<T>, key: T -> K)
  {
    forall i, j :: 0 <= i < j < |r| ==> key(r[i]) != key(r[j])
  }

  /** Every key of `s` is the key of some element of `r`. */
  ghost predicate CoversKeys<T, K>(s: seq<T>, key: T -> K, r: seq<T>)
  {
    forall i :: 0 <= i < |s| ==> FirstIndexOfKey(r, key, key(s[i])) < |r|
  }

  /** Every element of `r` is the first element of `s` with its key. */
  ghost predicate FirstsOf<T, K>(s: seq<T>, key: T -> K, r: seq<T>)
  {
    forall i :: 0 <= i < |r| ==>
      FirstIndexOfKey(s, key, key(r[i])) < |s| && r[i] == s[FirstIndexOfKey(s, key, key(r[i]))]
  }

  /** The elements of `r` come in the order their keys first occur in `s`. */
  ghost predicate InOrderOf<T, K>(s: seq<T>, key: T -> K, r: seq<T>)
  {
    forall i, j :: 0 <= i < j < |r| ==>
      FirstIndexOfKey(s, key, key(r[i])) < FirstIndexOfKey(s, key, key(r[j]))
  }

  /** Appending an element leaves the first positions of keys already seen. */
  lemma SeenKeysStay<T, K>(p: seq<T>, x: T, key: T -> K, kept: seq<T>)
    requires FirstsOf(p, key, kept)
    ensures forall i :: 0 <= i < |kept| ==>
      FirstIndexOfKey(p + [x], key, key(kept[i])) == FirstIndexOfKey(p, key, key(kept[i])) < |p|
  {
    forall i | 0 <= i < |kept|
      ensures FirstIndexOfKey(p + [x], key, key(kept[i])) == FirstIndexOfKey(p, key, key(kept[i])) < |p|
    {
      FirstIndexExtend(p, x, key, key(kept[i]));
    }
  }

  /** Step of the induction when the new element's key was already kept. */
  lemma KeepStepSeen<T, K>(p: seq<T>, x: T, key: T -> K, kept: seq<T>)
    requires DistinctKeys(kept, key) && CoversKeys(p, key, kept)
    requires FirstsOf(p, key, kept) && InOrderOf(p, key, kept)
    requires FirstIndexOfKey(kept, key, key(x)) < |kept|
    ensures DistinctKeys(kept, key) && CoversKeys(p + [x], key, kept)
    ensures FirstsOf(p + [x], key, kept) && InOrderOf(p + [x], key, kept)
  {
    var s := p + [x];
    SeenKeysStay(p, x, key, kept);
    forall i | 0 <= i < |s| ensures FirstIndexOfKey(kept, key, key(s[i])) < |kept| {
      if i < |p| { assert s[i] == p[i]; }
    }
    forall i | 0 <= i < |kept|
      ensures FirstIndexOfKey(s, key, key(kept[i])) < |s| && kept[i] == s[FirstIndexOfKey(s, key, key(kept[i]))]
    {
      assert kept[i] == p[FirstIndexOfKey(p, key, key(kept[i]))];
    }
  }

  /** A key missing from `kept`, which covers `p`, first occurs at the end of `p + [x]`. */
  lemma NewKeyAtEnd<T, K>(p: seq<T>, x: T, key: T -> K, kept: seq<T>)
    requires CoversKeys(p, key, kept)
    requires FirstIndexOfKey(kept, key, key(x)) == |kept|
    ensures FirstIndexOfKey(p + [x], key, key(x)) == |p|
  {
    FirstIndexExtend(p, x, key, key(x));
  }

  lemma NewKeyDistinct<T, K>(x: T, key: T -> K, kept: seq<T>)
    requires DistinctKeys(kept, key)
    requires FirstIndexOfKey(kept, key, key(x)) == |kept|
    ensures DistinctKeys(kept + [x], key)
  {
    var r := kept + [x];
    forall i, j | 0 <= i < j < |r| ensures key(r[i]) != key(r[j]) {
      assert r[i] == kept[i];
      if j < |kept| { assert r[j] == kept[j]; }
    }
  }

  lemma NewKeyCovers<T, K>(p: seq<T>, x: T, key: T -> K, kept: seq<T>)
    requires CoversKeys(p, key, kept)
    ensures CoversKeys(p + [x], key, kept + [x])
  {
    var s, r := p + [x], kept + [x];
    forall i | 0 <= i < |s| ensures FirstIndexOfKey(r, key, key(s[i])) < |r| {
      FirstIndexExtend(kept, x, key, key(s[i]));
      if i < |p| { assert s[i] == p[i]; }
    }
  }

  lemma NewKeyFirsts<T, K>(p: seq<T>, x: T, key: T -> K, kept: seq<T>)
    requires FirstsOf(p, key, kept)
    requires FirstIndexOfKey(p + [x], key, key(x)) == |p|
    ensures FirstsOf(p + [x], key, kept + [x])
  {
    var s, r := p + [x], kept + [x];
    SeenKeysStay(p, x, key, kept);
    forall i | 0 <= i < |r|
      ensures FirstIndexOfKey(s, key, key(r[i])) < |s| && r[i] == s[FirstIndexOfKey(s, key, key(r[i]))]
    {
      if i < |kept| {
        assert r[i] == kept[i] == p[FirstIndexOfKey(p, key, key(kept[i]))];
      }
    }
  }

  lemma NewKeyInOrder<T, K>(p: seq<T>, x: T, key: T -> K, kept: seq<T>)
    requires FirstsOf(p, key, kept) && InOrderOf(p, key, kept)
    requires FirstIndexOfKey(p + [x], key, key(x)) == |p|
    ensures InOrderOf(p + [x], key, kept + [x])
  {
    var s, r := p + [x], kept + [x];
    SeenKeysStay(p, x, key, kept);
    forall i, j | 0 <= i < j < |r|
      ensures FirstIndexOfKey(s, key, key(r[i])) < FirstIndexOfKey(s, key, key(r[j]))
    {
      assert r[i] == kept[i];
      if j < |kept| { assert r[j] == kept[j]; }
    }
  }

  /** The kept elements have distinct keys; no key of the input is lost;
      each kept element is the first of the input with its key; and they keep
      the input's order. Together these determine the result. */
  lemma {:induction false} KeepFirstByCorrect<T, K>(s: seq<T>, key: T -> K)
    ensures DistinctKeys(KeepFirstBy(s, key), key)
    ensures CoversKeys(s, key, KeepFirstBy(s, key))
    ensures FirstsOf(s, key, KeepFirstBy(s, key))
    ensures InOrderOf(s, key, KeepFirstBy(s, key))
  {
    if s != [] {
      var p, x := s[..|s| - 1], s[|s| - 1];
      assert s == p + [x];
      KeepFirstByCorrect(p, key);
      var kept := KeepFirstBy(p, key);
      if FirstIndexOfKey(kept, key, key(x)) < |kept| {
        KeepStepSeen(p, x, key, kept);
      } else {
        NewKeyAtEnd(p, x, key, kept);
        NewKeyDistinct(x, key, kept);
        NewKeyCovers(p, x, key, kept);
        NewKeyFirsts(p, x, key, kept);
        NewKeyInOrder(p, x, key, kept);
      }
    }
  }

  function Identity<T>(x: T): T { x }

  /** No element occurs twice. */
  predicate Distinct<T(==)>(s: seq<T>)
  {
    forall i, j :: 0 <= i < j < |s| ==> s[i] != s[j]
  }

  /** `dedup(arr)`: drops every element structurally equal to an earlier one. */
  function Dedup<T(==)>(s: seq<T>): seq<T>
  {
    KeepFirstBy(s, Identity)
  }

  /** The position of the first occurrence of `x` in `s`. */
  function FirstIndexOf<T(==)>(s: seq<T>, x: T): nat
  {
    FirstIndexOfKey(s, Identity, x)
  }

  /** `dedup` yields each element of the input once, in order of first
      occurrence. */
  lemma DedupCorrect<T>(s: seq<T>)
    ensures var r := Dedup(s);
      && Distinct(r)
      && (forall x :: x in r <==> x in s)
      && (forall i, j :: 0 <= i < j < |r| ==> FirstIndexOf(s, r[i]) < FirstIndexOf(s, r[j]))
  {
    var r := Dedup(s);
    KeepFirstByCorrect(s, Identity);
    forall x | x in s ensures x in r {
      var i :| 0 <= i < |s| && s[i] == x;
      var m := FirstIndexOfKey(r, Identity, Identity(s[i]));
      assert r[m] == x;
    }
  }

  /** A list without duplicates comes back unchanged (so `dedup` is also
      idempotent). */
  lemma {:induction false} DedupOfDistinct<T>(s: seq<T>)
    requires Distinct(s)
    ensures Dedup(s) == s
  {
    if s != [] {
      var p, x := s[..|s| - 1], s[|s| - 1];
      DedupOfDistinct(p);
      assert FirstIndexOfKey(p, Identity, Identity(x)) == |p|;
      assert s == p + [x];
    }
  }

  function FieldOf(field: string): Json -> Option<Json>
  {
    e => Get(e, field)
  }

  /** `removeDuplicateObjects(arr, field)`: keeps the first object for each
      distinct value of `field` (objects lacking it share the value
      `undefined`). */
  function RemoveDuplicateObjects(arr: seq<Json>, field: string): seq<Json>
  {
    KeepFirstBy(arr, FieldOf(field))
  }

  /** The kept objects have distinct `field` values, each is the first object
      with its value, they keep the input's order, and the first object for
      every value (in particular any object whose value is unique) is kept. */
  lemma RemoveDuplicateObjectsCorrect(arr: seq<Json>, field: string)
    ensures var r := RemoveDuplicateObjects(arr, field);
      && (forall i, j :: 0 <= i < j < |r| ==> Get(r[i], field) != Get(r[j], field))
      && (forall x :: x in r ==> x in arr)
      && (forall i :: 0 <= i < |arr| && (forall j :: 0 <= j < i ==> Get(arr[j], field) != Get(arr[i], field))
            ==> arr[i] in r)
      && (forall i, j :: 0 <= i < j < |r| ==>
            FirstIndexOfKey(arr, FieldOf(field), Get(r[i], field)) < FirstIndexOfKey(arr, FieldOf(field), Get(r[j], field)))
  {
    var key := FieldOf(field);
    var r := RemoveDuplicateObjects(arr, field);
    KeepFirstByCorrect(arr, key);
    forall i | 0 <= i < |arr| && (forall j :: 0 <= j < i ==> Get(arr[j], field) != Get(arr[i], field))
      ensures arr[i] in r
    {
      assert FirstIndexOfKey(arr, key, key(arr[i])) == i;
      var m := FirstIndexOfKey(r, key, key(arr[i]));
      assert r[m] == arr[i];
    }
  }

  // ---------------------------------------------------------------------
  // clientid2name

  /** `clientid2name(id)`: the registry name of a client id, "null" for an
      id no source has. */
  function ClientIdToName(id: int): string
  {
    match Registry.LookupById(Registry.Clients, id)
    case Some(c) => c.name
    case None => "null"
  }

  lemma ClientIdToNameCorrect(id: int)
    ensures forall i :: 0 <= i < |Registry.Clients| ==>
              ClientIdToName(Registry.Clients[i].id) == Registry.Clients[i].name
    ensures (forall i :: 0 <= i < |Registry.Clients| ==> Registry.Clients[i].id != id)
              ==> ClientIdToName(id) == "null"
  {
    Registry.RegistryIdsDistinct();
    forall i | 0 <= i < |Registry.Clients|
      ensures ClientIdToName(Registry.Clients[i].id) == Registry.Clients[i].name
    {
      Registry.LookupRegistered(Registry.Clients, i);
    }
  }

  // ---------------------------------------------------------------------
  // getBreakpoint

  datatype Breakpoint = MobileMini | Mobile | Tablet | Desktop
  {
    /** The name `getBreakpoint` returns. */
    function Name(): string
    {
      match this
      case MobileMini => "mobilemini"
      case Mobile => "mobile"
      case Tablet => "tablet"
      case Desktop => "desktop"
    }

    function Rank(): nat
    {
      match this
      case MobileMini => 0
      case Mobile => 1
      case Tablet => 2
      case Desktop => 3
    }
  }

  /** `getBreakpoint()` for a window `width` pixels wide: up to 410 pixels
      mobilemini, up to 640 mobile, up to 1280 tablet, desktop beyond. */
  function GetBreakpoint(width: int): Breakpoint
  {
    if width <= 410 then MobileMini
    else if width <= 640 then Mobile
    else if width <= 1280 then Tablet
    else Desktop
  }

  /** A wider window never gets a smaller layout. */
  lemma BreakpointMonotone(w: int, w': int)
    requires w <= w'
    ensures GetBreakpoint(w).Rank() <= GetBreakpoint(w').Rank()
  {
  }

  /** The tested widths, the boundary widths among them, get the tested
      layout names. */
  lemma BreakpointExamples()
    ensures GetBreakpoint(400).Name() == "mobilemini" && GetBreakpoint(410).Name() == "mobilemini"
    ensures GetBreakpoint(500).Name() == "mobile" && GetBreakpoint(411).Name() == "mobile"
    ensures GetBreakpoint(1000).Name() == "tablet" && GetBreakpoint(641).Name() == "tablet"
    ensures GetBreakpoint(1440).Name() == "desktop" && GetBreakpoint(1281).Name() == "desktop"
  {
  }

  // ---------------------------------------------------------------------
  // getTZ / createTzObj

  /** `getTZ(tz)`: the zone name before the first "|", or "UTC" for a missing
      or empty setting. */
  function GetTZ(tz: Option<string>): (r: string)
    ensures tz.None? || tz == Some("") ==> r == "UTC"
    ensures tz.Some? && tz.value != "" ==> StartsWith(tz.value, r) && '|' !in r
  {
    if tz.None? || tz.value == "" then "UTC" else Split(tz.value, '|')[0]
  }

  lemma GetTZCorrect(tz: string)
    requires tz != ""
    ensures StartsWith(tz, GetTZ(Some(tz))) && '|' !in GetTZ(Some(tz))
    ensures '|' !in tz ==> GetTZ(Some(tz)) == tz
    ensures '|' in tz ==> GetTZ(Some(tz)) == tz[..IndexOf(tz, '|')]
  {
  }

  /** One entry of the timezone picker. */
  datatype TzOption = TzOption(name: string, value: string)

  /** `createTzObj(zones)` over the zone object's entries in insertion order:
      every zone outside "Etc/" becomes `{name, value: name + "|" + abbr}`. */
  function CreateTzObj(zones: seq<(string, string)>): seq<TzOption>
  {
    if zones == [] then []
    else
      var rest := CreateTzObj(zones[1..]);
      var name := zones[0].0;
      if StartsWith(name, "Etc/") then rest else [TzOption(name, name + "|" + zones[0].1)] + rest
  }

  /** An entry is offered exactly when its zone is in the input and outside
      "Etc/", and every offered value carries its name before the "|". */
  lemma {:induction false} CreateTzObjCorrect(zones: seq<(string, string)>)
    ensures forall name, abbr :: TzOption(name, name + "|" + abbr) in CreateTzObj(zones)
              <==> (name, abbr) in zones && !StartsWith(name, "Etc/")
    ensures forall o :: o in CreateTzObj(zones) ==>
              !StartsWith(o.name, "Etc/") && StartsWith(o.value, o.name + "|")
    ensures |CreateTzObj(zones)| <= |zones|
  {
    if zones != [] {
      CreateTzObjCorrect(zones[1..]);
      var name, abbr := zones[0].0, zones[0].1;
      forall n, a | TzOption(n, n + "|" + a) == TzOption(name, name + "|" + abbr)
        ensures (n, a) == (name, abbr)
      {
        assert (n + "|" + a)[|n| + 1..] == a;
        assert (name + "|" + abbr)[|name| + 1..] == abbr;
      }
      assert zones == [zones[0]] + zones[1..];
      assert (name + "|" + abbr)[..|name| + 1] == name + "|";
    }
  }

  /** The picker lists the zones in input order: each zone contributes its
      own entry, or none for an "Etc/" zone, where it stands. */
  lemma {:induction false} CreateTzObjAppend(a: seq<(string, string)>, b: seq<(string, string)>)
    ensures CreateTzObj(a + b) == CreateTzObj(a) + CreateTzObj(b)
  {
    if a == [] {
      assert a + b == b;
    } else {
      assert (a + b)[0] == a[0] && (a + b)[1..] == a[1..] + b;
      CreateTzObjAppend(a[1..], b);
    }
  }

  lemma CreateTzObjSingle(name: string, abbr: string)
    ensures StartsWith(name, "Etc/") ==> CreateTzObj([(name, abbr)]) == []
    ensures !StartsWith(name, "Etc/") ==> CreateTzObj([(name, abbr)]) == [TzOption(name, name + "|" + abbr)]
  {
    assert [(name, abbr)][1..] == [];
  }

  /** The tested zone table: the "Etc/" zone is dropped and the other two
      come out in their input order. */
  lemma CreateTzObjExample(ny: string, gmt: string, london: string)
    requires ny == "America/New_York" && gmt == "Etc/GMT" && london == "Europe/London"
    ensures CreateTzObj([(ny, "EST"), (gmt, "GMT"), (london, "GMT")])
            == [TzOption(ny, ny + "|EST"), TzOption(london, london + "|GMT")]
  {
    assert [(ny, "EST"), (gmt, "GMT"), (london, "GMT")] == [(ny, "EST")] + ([(gmt, "GMT")] + [(london, "GMT")]);
    CreateTzObjAppend([(ny, "EST")], [(gmt, "GMT")] + [(london, "GMT")]);
    CreateTzObjAppend([(gmt, "GMT")], [(london, "GMT")]);
    assert !StartsWith(ny, "Etc/") by { assert ny[..4][0] == 'A'; }
    assert StartsWith(gmt, "Etc/") by { assert gmt[..4] == "Etc/"; }
    assert !StartsWith(london, "Etc/") by { assert london[..4][1] == 'u'; }
    CreateTzObjSingle(ny, "EST");
    CreateTzObjSingle(gmt, "GMT");
    CreateTzObjSingle(london, "GMT");
    assert ny + "|" + "EST" == ny + "|EST" && london + "|" + "GMT" == london + "|GMT";
  }

  /** Choosing an entry and reading its value back with `getTZ` gives the
      zone's name. */
  lemma GetTZOfOption(name: string, abbr: string)
    requires name != "" && '|' !in name
    ensures GetTZ(Some(TzOption(name, name + "|" + abbr).value)) == name
  {
    var v := name + "|" + abbr;
    assert v[|name|] == '|';
    assert v[..IndexOf(v, '|')] == name;
  }

  // ---------------------------------------------------------------------
  // validateFormData (password marker and required fields)

  datatype FormField = FormField(val: string, req: bool, pwd: bool)
  datatype FormResult = FormResult(ok: bool, data: seq<(string, string)>)

  /** The ten bullets a form shows in place of a stored password. */
  const HiddenPassword: string := "••••••••••"

  /** A password field still showing the marker: the user did not change it. */
  predicate Hidden(f: FormField)
  {
    f.pwd && f.val == HiddenPassword
  }

  function SubmittedValues(fields: seq<(string, FormField)>): seq<(string, string)>
  {
    if fields == [] then []
    else
      var rest := SubmittedValues(fields[1..]);
      if Hidden(fields[0].1) then rest else [(fields[0].0, fields[0].1.val)] + rest
  }

  predicate MissingRequired(fields: seq<(string, FormField)>)
  {
    exists i :: 0 <= i < |fields| && fields[i].1.req && fields[i].1.val == ""
  }

  /** `validateFormData({data, req})`: submits every value except an unchanged
      password; when `checkRequired` is set, an empty required field fails. */
  function ValidateFormData(fields: seq<(string, FormField)>, checkRequired: bool): FormResult
  {
    FormResult(!(checkRequired && MissingRequired(fields)), SubmittedValues(fields))
  }

  /** A key/value pair is submitted exactly when some field with that key
      holds that value and is not an unchanged password. */
  lemma {:induction false} SubmittedValuesCorrect(fields: seq<(string, FormField)>)
    ensures forall k, v :: (k, v) in SubmittedValues(fields)
              <==> exists f :: (k, f) in fields && f.val == v && !Hidden(f)
  {
    if fields != [] {
      SubmittedValuesCorrect(fields[1..]);
      assert fields == [fields[0]] + fields[1..];
    }
  }

  /** A form passes when its required fields are not checked, or when every
      required field holds a value. */
  lemma ValidateFormDataPasses(fields: seq<(string, FormField)>, checkRequired: bool)
    ensures !checkRequired ==> ValidateFormData(fields, checkRequired).ok
    ensures (forall i :: 0 <= i < |fields| && fields[i].1.req ==> fields[i].1.val != "")
            ==> ValidateFormData(fields, checkRequired).ok
  {
  }

  /** The form with field `i` emptied. */
  function Blank(fields: seq<(string, FormField)>, i: nat): seq<(string, FormField)>
    requires i < |fields|
  {
    fields[i := (fields[i].0, fields[i].1.(val := ""))]
  }

  /** Emptying any required field makes a checked form fail, while the
      empty value is still submitted under its key. */
  lemma BlankRequiredFails(fields: seq<(string, FormField)>, i: nat)
    requires i < |fields| && fields[i].1.req
    ensures !ValidateFormData(Blank(fields, i), true).ok
    ensures (fields[i].0, "") in ValidateFormData(Blank(fields, i), true).data
  {
    var b := Blank(fields, i);
    assert b[i].1.req && b[i].1.val == "";
    SubmittedValuesCorrect(b);
    assert (b[i].0, b[i].1) in b;
    assert HiddenPassword != "" by { assert |HiddenPassword| == 10; }
  }

  /** The tested forms: plain values and a changed password are submitted,
      the marker is not, and an empty required username fails when
      required fields are checked. */
  lemma ValidateFormDataExamples()
    ensures ValidateFormData([("field1", FormField("test", false, false))], false)
            == FormResult(true, [("field1", "test")])
    ensures ValidateFormData([("pass", FormField(HiddenPassword, false, true))], false)
            == FormResult(true, [])
    ensures ValidateFormData([("pass", FormField("realpassword", false, true))], false)
            == FormResult(true, [("pass", "realpassword")])
    ensures !ValidateFormData([("username", FormField("", true, false))], true).ok
  {
    assert "realpassword" != HiddenPassword by { assert "realpassword"[0] != HiddenPassword[0]; }
    assert "test" != HiddenPassword by { assert "test"[0] != HiddenPassword[0]; }
    var hidden := ("pass", FormField(HiddenPassword, false, true));
    assert [hidden][1..] == [];
    BlankRequiredFails([("username", FormField("", true, false))], 0);
    assert Blank([("username", FormField("", true, false))], 0) == [("username", FormField("", true, false))];
  }

  /** With one password field under `key`: its value is submitted exactly
      when it is not the marker. */
  lemma ValidateFormDataPassword(fields: seq<(string, FormField)>, checkRequired: bool, key: string, f: FormField)
    requires (key, f) in fields && f.pwd
    requires forall g :: (key, g) in fields ==> g == f
    ensures (key, f.val) in ValidateFormData(fields, checkRequired).data <==> f.val != HiddenPassword
  {
    SubmittedValuesCorrect(fields);
  }
}
