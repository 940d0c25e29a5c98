/** How the build script computes a version from the CI environment and
    renders it as text (`getVersion` and `getVersionAsText` in gulpfile.js). */
module Versioning {
  import opened JsStrings

  /** The prerelease channel, chosen from the branch name. */
  datatype Channel = Rc | Beta | Alpha

  function ChannelName(c: Channel): (name: string)
    ensures |name| >= 2 && '.' !in name && '-' !in name
  {
    match c
    case Rc => "rc"
    case Beta => "beta"
    case Alpha => "alpha"
  }

  /** The channel a name denotes, if any: the inverse of `ChannelName`. */
  function ChannelNamed(name: string): (c: Option<Channel>)
    ensures c.Some? ==> ChannelName(c.value) == name
  {
    if name == "rc" then Some(Rc)
    else if name == "beta" then Some(Beta)
    else if name == "alpha" then Some(Alpha)
    else None
  }

  lemma ChannelNameRoundTrip(c: Channel)
    ensures ChannelNamed(ChannelName(c)) == Some(c)
  {
  }

  /** The object `getVersion` returns: major/minor/patch, and for an untagged
      build the `prerelease` and `buildnumber` properties it adds. A missing
      property is `None`. */
  datatype Version = Version(major: nat, minor: nat, patch: nat,
                             prerelease: Option<Channel>, buildnumber: Option<string>)

  /** A prerelease channel and a build number are present together or not at all. */
  predicate WellFormed(v: Version) {
    v.prerelease.Some? == v.buildnumber.Some?
  }

  /** The three CI variables `getVersion` reads; `None` is an unset variable. */
  datatype Environment = Environment(repoBranch: Option<string>, repoTag: Option<string>,
                                     buildNumber: Option<string>)

  /** What the script reads from `new Date()`: `getFullYear()`, the zero-based
      `getMonth()` and `getDate()`. */
  datatype CalendarDate = CalendarDate(fullYear: nat, monthIndex: nat, dayOfMonth: nat)

  /** The major/minor/patch triple taken from the version in appveyor.yml. */
  datatype Semver = Semver(major: nat, minor: nat, patch: nat)

  /** The local `tag` after its fallback: the variable's string, or `false`. */
  datatype TagValue = JsFalse | JsString(s: string)

  /** `tag == 'true'` under JavaScript's loose equality: `false` is compared as
      the number 0 and `'true'` as NaN, so only the string "true" matches. */
  predicate LooselyEqualsTrueText(tag: TagValue) {
    match tag
    case JsFalse => false
    case JsString(s) => s == "true"
  }

  /** The branch name after its fallback to "offline". */
  function EffectiveBranch(branch: Option<string>): (b: string)
    ensures b != ""
    ensures Truthy(branch) ==> b == branch.value
    ensures !Truthy(branch) ==> b == "offline"
  {
    if Truthy(branch) then branch.value else "offline"
  }

  /** The date-derived build number: the last two digits of the year, then the
      one-based month and the day, each zero-padded to two digits. */
  function DateStamp(d: CalendarDate): (s: string)
    ensures AllDigits(s) && |s| >= 5
  {
    SliceFromEnd(NatToString(d.fullYear), 2)
      + PadStart(NatToString(d.monthIndex + 1), 2, '0')
      + PadStart(NatToString(d.dayOfMonth), 2, '0')
  }

  /** `s` is the six digits YYMMDD of `d`: the year modulo 100, the one-based
      month and the day of the month, two digits each. */
  predicate IsSixDigitStamp(s: string, d: CalendarDate) {
    |s| == 6 && AllDigits(s)
    && DigitsValue(s[..2]) == d.fullYear % 100
    && DigitsValue(s[2..4]) == d.monthIndex + 1
    && DigitsValue(s[4..]) == d.dayOfMonth
  }

  /** The build number after its fallback to `DateStamp`: never empty, and on
      a calendar date of a year from 10 on it is the six digits YYMMDD. */
  function EffectiveBuildNumber(buildNumber: Option<string>, today: CalendarDate): (b: string)
    ensures b != ""
    ensures Truthy(buildNumber) ==> b == buildNumber.value
    ensures !Truthy(buildNumber) ==> b == DateStamp(today)
    ensures !Truthy(buildNumber) && today.fullYear >= 10 && today.monthIndex < 12 && today.dayOfMonth <= 31 ==>
              IsSixDigitStamp(b, today)
  {
    if Truthy(buildNumber) then
      buildNumber.value
    else
      var stamp := DateStamp(today);
      assert today.fullYear >= 10 && today.monthIndex < 12 && today.dayOfMonth <= 31 ==>
               IsSixDigitStamp(stamp, today)
      by {
        if today.fullYear >= 10 && today.monthIndex < 12 && today.dayOfMonth <= 31 {
          DateStampShape(today);
        }
      }
      stamp
  }

  lemma {:induction false} TwoDigitField(n: nat)
    requires n < 100
    ensures var r := PadStart(NatToString(n), 2, '0');
            |r| == 2 && AllDigits(r) && DigitsValue(r) == n
  {
    var s := NatToString(n);
    var r := PadStart(s, 2, '0');
    NatToStringRoundTrip(n);
    if n < 10 {
      assert r == ['0'] + s;
      assert r[..1] == ['0'] && DigitsValue(['0'][..0]) == 0;
      assert DigitsValue(s) == DigitsValue(s[..0]) * 10 + DigitValue(s[0]);
    } else {
      assert n / 10 < 10;
      assert r == s;
    }
  }

  lemma Mod100(n: nat)
    ensures n % 100 == (n / 10 % 10) * 10 + n % 10
  {
    var q, c := n / 10, n % 10;
    var a, b := q / 10, q % 10;
    assert n == 10 * q + c;
    assert q == 10 * a + b;
    assert n == 100 * a + (10 * b + c);
    assert 0 <= 10 * b + c < 100;
  }

  /** The digit pair "xy" denotes 10x + y. */
  lemma PairValue(x: nat, y: nat)
    requires x < 10 && y < 10
    ensures DigitsValue([DigitChar(x), DigitChar(y)]) == x * 10 + y
  {
    var r := [DigitChar(x), DigitChar(y)];
    assert r[..1] == [DigitChar(x)] && r[..1][..0] == [];
    assert DigitsValue(r[..1]) == DigitsValue([]) * 10 + DigitValue(DigitChar(x)) == x;
    assert DigitsValue(r) == DigitsValue(r[..1]) * 10 + DigitValue(DigitChar(y));
  }

  /** The last character of a number's decimal text is its last digit. */
  lemma LastDigit(n: nat)
    ensures var s := NatToString(n); s[|s| - 1] == DigitChar(n % 10)
  {
  }

  lemma LastTwoChars(n: nat)
    requires n >= 10
    ensures SliceFromEnd(NatToString(n), 2) == [DigitChar(n / 10 % 10), DigitChar(n % 10)]
  {
    var s := NatToString(n / 10);
    assert NatToString(n) == s + [DigitChar(n % 10)];
    LastDigit(n / 10);
    LastTwoOfAppend(s, DigitChar(n % 10));
  }

  lemma LastTwoOfAppend(s: string, c: char)
    requires |s| >= 1
    ensures SliceFromEnd(s + [c], 2) == [s[|s| - 1], c]
  {
  }

  lemma {:induction false} LastTwoDigits(n: nat)
    requires n >= 10
    ensures var r := SliceFromEnd(NatToString(n), 2);
            |r| == 2 && AllDigits(r) && DigitsValue(r) == n % 100
  {
    var hi, lo := n / 10 % 10, n % 10;
    LastTwoChars(n);
    PairValue(hi, lo);
    Mod100(n);
  }

  /** The date fallback is six digits: year modulo 100, the one-based month
      and the day of the month, two digits each. */
  lemma DateStampShape(d: CalendarDate)
    requires d.fullYear >= 10 && d.monthIndex + 1 < 100 && d.dayOfMonth < 100
    ensures IsSixDigitStamp(DateStamp(d), d)
  {
    var y := SliceFromEnd(NatToString(d.fullYear), 2);
    var m := PadStart(NatToString(d.monthIndex + 1), 2, '0');
    var dd := PadStart(NatToString(d.dayOfMonth), 2, '0');
    assert |y| == 2 && AllDigits(y) && DigitsValue(y) == d.fullYear % 100 by {
      LastTwoDigits(d.fullYear);
    }
    assert |m| == 2 && AllDigits(m) && DigitsValue(m) == d.monthIndex + 1 by {
      TwoDigitField(d.monthIndex + 1);
    }
    assert |dd| == 2 && AllDigits(dd) && DigitsValue(dd) == d.dayOfMonth by {
      TwoDigitField(d.dayOfMonth);
    }
    SplitSix(y, m, dd, d.fullYear % 100, d.monthIndex + 1, d.dayOfMonth);
  }

  lemma SplitSix(a: string, b: string, c: string, x: nat, y: nat, z: nat)
    requires |a| == 2 && |b| == 2 && |c| == 2
    requires AllDigits(a) && AllDigits(b) && AllDigits(c)
    requires DigitsValue(a) == x && DigitsValue(b) == y && DigitsValue(c) == z
    ensures var s := a + b + c;
            |s| == 6 && AllDigits(s)
            && DigitsValue(s[..2]) == x && DigitsValue(s[2..4]) == y && DigitsValue(s[4..]) == z
  {
    var s := a + b + c;
    assert s[..2] == a && s[2..4] == b && s[4..] == c;
  }

  /** `getVersion`: the branch, tag and build number fall back to "offline",
      `false` and the date stamp; a tag equal to "true" yields the bare
      version, and otherwise the channel follows the branch prefix and the
      build number is attached. */
  method GetVersion(env: Environment, today: CalendarDate, release: Semver) returns (version: Version)
    ensures version.major == release.major && version.minor == release.minor
            && version.patch == release.patch
    ensures WellFormed(version)
    ensures version.prerelease.None? <==> env.repoTag == Some("true")
    ensures var branch := EffectiveBranch(env.repoBranch);
            (version.prerelease == Some(Rc) <==>
               env.repoTag != Some("true") && StartsWith(branch, "master"))
            && (version.prerelease == Some(Beta) <==>
               env.repoTag != Some("true") && !StartsWith(branch, "master")
               && StartsWith(branch, "dev"))
            && (version.prerelease == Some(Alpha) <==>
               env.repoTag != Some("true") && !StartsWith(branch, "master")
               && !StartsWith(branch, "dev"))
    ensures env.repoTag != Some("true") && !Truthy(env.repoBranch) ==>
              version.prerelease == Some(Alpha)
    ensures env.repoTag != Some("true") ==>
              version.buildnumber == Some(EffectiveBuildNumber(env.buildNumber, today))
  {
    var branch := env.repoBranch;
    if !Truthy(branch) {
      branch := Some("offline");
    }
    var tag: TagValue := if env.repoTag.Some? then JsString(env.repoTag.value) else JsFalse;
    if !Truthy(env.repoTag) {
      tag := JsFalse;
    }
    var buildnumber := env.buildNumber;
    if !Truthy(buildnumber) {
      buildnumber := Some(DateStamp(today));
    }

    version := Version(release.major, release.minor, release.patch, None, None);

    if LooselyEqualsTrueText(tag) {
      return;
    }

    var prerelease: Channel;
    if StartsWith(branch.value, "master") {
      prerelease := Rc;
    } else if StartsWith(branch.value, "dev") {
      prerelease := Beta;
    } else {
      prerelease := Alpha;
    }
    version := version.(prerelease := Some(prerelease), buildnumber := buildnumber);
    assert !StartsWith("offline", "master") && !StartsWith("offline", "dev") by {
      assert "offline"[..6] != "master" by { assert "offline"[..6][0] != "master"[0]; }
      assert "offline"[..3] != "dev" by { assert "offline"[..3][0] != "dev"[0]; }
    }
  }

  /** The "M.m.p" text every rendering starts with. */
  function CoreText(v: Version): (text: string)
    ensures forall i :: 0 <= i < |text| ==> IsDigit(text[i]) || text[i] == '.'
  {
    NatToString(v.major) + "." + NatToString(v.minor) + "." + NatToString(v.patch)
  }

  /** `getVersionAsText`: "M.m.p" without a prerelease, "M.m.p-<pre>.<build>" with one. */
  function GetVersionAsText(v: Version): (text: string)
    ensures StartsWith(text, CoreText(v))
    ensures v.prerelease.None? ==> text == CoreText(v)
  {
    if v.prerelease.Some? then
      CoreText(v) + "-" + ChannelName(v.prerelease.value) + "." + ConcatText(v.buildnumber)
    else
      CoreText(v)
  }

  /** A rendering marks a prerelease: the text has a '-' exactly when the
      version has a prerelease channel. */
  lemma PrereleaseMarker(v: Version)
    ensures '-' in GetVersionAsText(v) <==> v.prerelease.Some?
  {
    var core := CoreText(v);
    var text := GetVersionAsText(v);
    if v.prerelease.Some? {
      assert text[|core|] == '-';
    } else {
      assert forall i :: 0 <= i < |text| ==> text[i] != '-';
    }
  }

  /** Reads a leading decimal number; the independent reader of `NatToString`. */
  function ParseLeadingNat(s: string): Option<(nat, string)> {
    var k := DigitSpan(s);
    if k == 0 then None else Some((DigitsValue(s[..k]), s[k..]))
  }

  /** Reads "M.m.p" or "M.m.p-<pre>.<build>" back into a version: the
      reference reader that `GetVersionAsText` is checked against. */
  function ParseVersionText(s: string): Option<Version> {
    match ParseLeadingNat(s)
    case None => None
    case Some((major, r)) => ParseAfterMajor(major, r)
  }

  /** Reads ".m.p..." once the major number has been read. */
  function ParseAfterMajor(major: nat, r: string): Option<Version> {
    if r == [] || r[0] != '.' then None else
    match ParseLeadingNat(r[1..])
    case None => None
    case Some((minor, r')) => ParseAfterMinor(major, minor, r')
  }

  /** Reads ".p..." once the major and minor numbers have been read. */
  function ParseAfterMinor(major: nat, minor: nat, r: string): Option<Version> {
    if r == [] || r[0] != '.' then None else
    match ParseLeadingNat(r[1..])
    case None => None
    case Some((patch, r')) => ParseSuffix(major, minor, patch, r')
  }

  /** Reads what follows "M.m.p": nothing, or "-<pre>.<build>". */
  function ParseSuffix(major: nat, minor: nat, patch: nat, r: string): Option<Version> {
    if r == [] then Some(Version(major, minor, patch, None, None))
    else if r[0] != '-' then None
    else
      var tail := r[1..];
      var k := IndexOf(tail, '.');
      if k == |tail| then None
      else
        match ChannelNamed(tail[..k])
        case None => None
        case Some(c) => Some(Version(major, minor, patch, Some(c), Some(tail[k + 1..])))
  }

  /** What `GetVersionAsText` puts after the "M.m.p" core. */
  function SuffixText(v: Version): string {
    GetVersionAsText(v)[|CoreText(v)|..]
  }

  lemma LeadingNatOf(n: nat, rest: string)
    requires rest == [] || !IsDigit(rest[0])
    ensures ParseLeadingNat(NatToString(n) + rest) == Some((n, rest))
  {
    var d := NatToString(n);
    DigitSpanAppend(d, rest);
    assert (d + rest)[..|d|] == d && (d + rest)[|d|..] == rest;
    NatToStringRoundTrip(n);
  }

  lemma TopStep(s: string, major: nat, r: string)
    requires ParseLeadingNat(s) == Some((major, r))
    ensures ParseVersionText(s) == ParseAfterMajor(major, r)
  {
  }

  lemma AfterMajorStep(major: nat, minor: nat, x: string, r: string)
    requires ParseLeadingNat(x) == Some((minor, r))
    ensures ParseAfterMajor(major, "." + x) == ParseAfterMinor(major, minor, r)
  {
    assert ("." + x)[1..] == x;
  }

  lemma AfterMinorStep(major: nat, minor: nat, patch: nat, x: string, r: string)
    requires ParseLeadingNat(x) == Some((patch, r))
    ensures ParseAfterMinor(major, minor, "." + x) == ParseSuffix(major, minor, patch, r)
  {
    assert ("." + x)[1..] == x;
  }

  lemma Reassociate(a: string, b: string, c: string, d: string, e: string, f: string)
    ensures a + b + c + d + e + f == a + (b + (c + (d + (e + f))))
  {
  }

  lemma CoreParse(v: Version, rest: string)
    requires rest == [] || rest[0] == '-'
    ensures ParseVersionText(CoreText(v) + rest) == ParseSuffix(v.major, v.minor, v.patch, rest)
  {
    var ma, mi, pa := NatToString(v.major), NatToString(v.minor), NatToString(v.patch);
    var r3 := pa + rest;
    var r2 := "." + r3;
    var r1 := "." + (mi + r2);
    assert CoreText(v) + rest == ma + r1 by {
      Reassociate(ma, ".", mi, ".", pa, rest);
    }
    assert ParseAfterMinor(v.major, v.minor, r2) == ParseSuffix(v.major, v.minor, v.patch, rest) by {
      LeadingNatOf(v.patch, rest);
      AfterMinorStep(v.major, v.minor, v.patch, r3, rest);
    }
    assert ParseAfterMajor(v.major, r1) == ParseAfterMinor(v.major, v.minor, r2) by {
      LeadingNatOf(v.minor, r2);
      AfterMajorStep(v.major, v.minor, mi + r2, r2);
    }
    assert ParseVersionText(ma + r1) == ParseAfterMajor(v.major, r1) by {
      LeadingNatOf(v.major, r1);
      TopStep(ma + r1, v.major, r1);
    }
  }

  lemma SuffixParse(v: Version)
    requires WellFormed(v)
    ensures ParseSuffix(v.major, v.minor, v.patch, SuffixText(v)) == Some(v)
  {
    if v.prerelease.Some? {
      var name := ChannelName(v.prerelease.value);
      var tail := SuffixText(v)[1..];
      assert tail == name + "." + v.buildnumber.value;
      assert tail[..|name|] == name;
      assert tail[|name|] == '.';
      assert forall j :: 0 <= j < |name| ==> tail[j] != '.' by {
        forall j | 0 <= j < |name| ensures tail[j] != '.' {
          assert tail[j] == name[j];
        }
      }
      assert IndexOf(tail, '.') == |name|;
      assert tail[|name| + 1..] == v.buildnumber.value;
      ChannelNameRoundTrip(v.prerelease.value);
    }
  }

  /** `GetVersionAsText` loses nothing: reading the text back gives the version. */
  lemma RenderParseRoundTrip(v: Version)
    requires WellFormed(v)
    ensures ParseVersionText(GetVersionAsText(v)) == Some(v)
  {
    assert GetVersionAsText(v) == CoreText(v) + SuffixText(v);
    CoreParse(v, SuffixText(v));
    SuffixParse(v);
  }
}
