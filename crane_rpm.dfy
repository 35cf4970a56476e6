/**
 * `getBgName` and `writeRPMManifest` of internal/crane/crane_engine.go: every installed
 * package becomes one `rpm-manifest.json` entry. The two regular expressions the
 * conversion uses are written out as string functions with Go's matching rules
 * (leftmost match, greedy `.*`, `.` stopping at a newline).
 */
module CraneRpm {
  import opened Wrappers
  import opened Strings
  import opened Plugin
  import opened Pyxis

  /** What the package database reports of one installed package. */
  datatype PackageInfo = PackageInfo(
    name: string,
    version: string,
    release: string,
    arch: string,
    sourceRpm: string,
    epoch: int,
    pgp: string,
    summary: string)

  // ----- getBgName -----

  /**
   * `getBgName`: the source rpm name without its last two `-` fields. With no `-` at
   * all the slice `parts[0:len(parts)-2]` is out of range, so one is required.
   */
  function GetBgName(srcrpm: string): (r: string)
    requires '-' in srcrpm
    ensures r <= srcrpm && |r| < |srcrpm|
  {
    var parts := Split(srcrpm, '-');
    CountCharPresent(srcrpm, '-');
    SplitLength(srcrpm, '-');
    var n := |parts|;
    var r := Join(parts[..n - 2], '-');
    assert r <= srcrpm && |r| < |srcrpm| by {
      JoinSplit(srcrpm, '-');
      if n > 2 {
        assert parts == parts[..n - 2] + parts[n - 2..];
        JoinAppend(parts[..n - 2], parts[n - 2..], '-');
      }
    }
    r
  }

  /** `name-version-release` with a dash-free version and release gives back `name`. */
  lemma GetBgNameDropsVersionAndRelease(name: string, version: string, release: string)
    requires '-' !in version && '-' !in release
    ensures GetBgName(name + "-" + version + "-" + release) == name
  {
    var s := name + "-" + version + "-" + release;
    assert s == (name + "-" + version) + ['-'] + release;
    SplitAround(name + "-" + version, release, '-');
    assert name + "-" + version == name + ['-'] + version;
    SplitAround(name, version, '-');
    SplitNoSeparator(version, '-');
    SplitNoSeparator(release, '-');
    var p := Split(name, '-');
    assert Split(s, '-') == p + [version] + [release];
    assert (p + [version] + [release])[..|p|] == p;
    JoinSplit(name, '-');
  }

  /** With exactly one `-` the source-package name is empty. */
  lemma GetBgNameOneDash(a: string, b: string)
    requires '-' !in a && '-' !in b
    ensures GetBgName(a + "-" + b) == ""
  {
    assert a + "-" + b == a + ['-'] + b;
    SplitAround(a, b, '-');
    SplitNoSeparator(a, '-');
    SplitNoSeparator(b, '-');
  }

  // ----- The release tail: regexp "(-[0-9].*)" -----

  /** A `-` followed by a decimal digit starts at `i`. */
  predicate DashDigitAt(s: string, i: int)
  {
    0 <= i && i + 1 < |s| && s[i] == '-' && IsDigit(s[i + 1])
  }

  /** The leftmost position at or after `from` where `-<digit>` starts. */
  function DashDigitFrom(s: string, from: nat): (r: Option<nat>)
    ensures r.Some? ==> from <= r.value && DashDigitAt(s, r.value)
    ensures r.Some? ==> forall j :: from <= j < r.value ==> !DashDigitAt(s, j)
    ensures r.None? ==> forall j :: from <= j ==> !DashDigitAt(s, j)
    decreases |s| - from
  {
    if from + 1 >= |s| then None
    else if DashDigitAt(s, from) then Some(from)
    else DashDigitFrom(s, from + 1)
  }

  /** The first newline at or after `from`, or the end of `s`. */
  function LineEnd(s: string, from: nat): (e: nat)
    requires from <= |s|
    ensures from <= e <= |s|
    ensures e < |s| ==> s[e] == '\n'
    ensures forall j :: from <= j < e ==> s[j] != '\n'
    decreases |s| - from
  {
    if from == |s| || s[from] == '\n' then from else LineEnd(s, from + 1)
  }

  /**
   * `FindString` of `(-[0-9].*)`: from the leftmost `-<digit>` to the end of its line,
   * or `""` when there is none.
   */
  function DashDigitMatch(s: string): (r: string)
    ensures r == "" <==> forall j :: !DashDigitAt(s, j)
    ensures r != "" ==> |r| >= 2 && r[0] == '-' && IsDigit(r[1])
    ensures '\n' !in r
  {
    match DashDigitFrom(s, 0)
    case None => ""
    case Some(i) =>
      var r := s[i..LineEnd(s, i + 2)];
      assert forall k :: 0 <= k < |r| ==> r[k] == s[i + k];
      r
  }

  /**
   * `endChop`: the matched tail without a trailing `.rpm` and without its leading `-`.
   * It is empty exactly when the name holds no `-<digit>`; otherwise it starts with that
   * digit. It never runs past the end of its line.
   */
  function EndChop(srcrpm: string): (r: string)
    ensures r == "" <==> forall j :: !DashDigitAt(srcrpm, j)
    ensures r != "" ==> IsDigit(r[0])
    ensures '\n' !in r
  {
    var m := DashDigitMatch(srcrpm);
    TrimRpmSuffix(m);
    var t := TrimSuffix(m, ".rpm");
    var r := TrimPrefix(t, "-");
    assert r != "" ==> r == t[1..];
    assert forall k :: 0 <= k < |r| ==> r[k] in t;
    r
  }

  /** Cutting `.rpm` off a `-<digit>` match keeps the `-<digit>` and adds no newline. */
  lemma TrimRpmSuffix(m: string)
    requires m != "" ==> |m| >= 2 && m[0] == '-' && IsDigit(m[1])
    requires '\n' !in m
    ensures var t := TrimSuffix(m, ".rpm");
      (m != "" <==> |t| >= 2 && t[0] == '-' && IsDigit(t[1])) && '\n' !in t
  {
    var t := TrimSuffix(m, ".rpm");
    if t != m {
      assert m[|m| - 4..] == ".rpm";
      assert t == m[..|m| - 4];
      assert forall k :: 0 <= k < |t| ==> t[k] == m[k];
    }
  }

  /**
   * For `name-version-release.rpm`, where the version starts with a digit and the name
   * holds no `-<digit>`, the tail is `version-release`.
   */
  lemma EndChopOfSourceRpm(name: string, version: string, release: string)
    requires forall j :: !DashDigitAt(name, j)
    requires |version| > 0 && IsDigit(version[0])
    requires '\n' !in version && '\n' !in release
    ensures EndChop(name + "-" + version + "-" + release + ".rpm") == version + "-" + release
  {
    var s := name + "-" + version + "-" + release + ".rpm";
    var i := |name|;
    assert DashDigitAt(s, i);
    forall j | 0 <= j < i
      ensures !DashDigitAt(s, j)
    {
      if j + 1 < i {
        assert s[j] == name[j] && s[j + 1] == name[j + 1];
        assert !DashDigitAt(name, j);
      } else {
        assert s[j + 1] == '-';
      }
    }
    var r := DashDigitFrom(s, 0);
    assert r == Some(i);
    var tail := s[i..];
    assert tail == "-" + version + "-" + release + ".rpm";
    forall j | i + 2 <= j < |s|
      ensures s[j] != '\n'
    {
      if j < i + 1 + |version| {
        assert s[j] == version[j - i - 1];
      } else if j == i + 1 + |version| {
        assert s[j] == '-';
      } else if j < i + 2 + |version| + |release| {
        assert s[j] == release[j - i - 2 - |version|];
      } else {
        assert s[j] == ".rpm"[j - i - 2 - |version| - |release|];
      }
    }
    assert LineEnd(s, i + 2) == |s|;
    assert DashDigitMatch(s) == tail;
    assert TrimSuffix(tail, ".rpm") == "-" + version + "-" + release;
    assert TrimPrefix("-" + version + "-" + release, "-") == version + "-" + release;
  }

  // ----- The signing key: regexp ".*, Key ID (.*)" -----

  const KeyIDMarker: string := ", Key ID "

  /** The key on one line: the text after the line's last marker, if it has one. */
  function KeyIDOnLine(line: string): (r: Option<string>)
    ensures r.None? <==> forall j :: !OccursAt(line, KeyIDMarker, j)
    ensures r.Some? ==> |r.value| + |KeyIDMarker| <= |line|
    ensures r.Some? ==> OccursAt(line, KeyIDMarker, |line| - |r.value| - |KeyIDMarker|)
    ensures r.Some? ==> forall j :: |line| - |r.value| - |KeyIDMarker| < j ==> !OccursAt(line, KeyIDMarker, j)
    ensures r.Some? ==> r.value == line[|line| - |r.value|..]
  {
    match LastOccurrence(line, KeyIDMarker)
    case None => None
    case Some(i) => Some(line[i + |KeyIDMarker|..])
  }

  /** The key on the first line that has the marker. */
  function FirstKeyID(lines: seq<string>): (r: Option<string>)
    ensures r.None? <==> forall i :: 0 <= i < |lines| ==> KeyIDOnLine(lines[i]).None?
    ensures r.Some? ==> exists i ::
      0 <= i < |lines| && KeyIDOnLine(lines[i]) == r && forall k :: 0 <= k < i ==> KeyIDOnLine(lines[k]).None?
  {
    if |lines| == 0 then None
    else if KeyIDOnLine(lines[0]).Some? then KeyIDOnLine(lines[0])
    else FirstKeyID(lines[1..])
  }

  /**
   * The first submatch of `.*, Key ID (.*)` on the signature text, or `""` when it does
   * not match: the leftmost match starts at the first line holding the marker, and the
   * greedy `.*` moves the group after that line's last marker.
   */
  function PgpKeyID(pgp: string): (r: string)
    ensures '\n' !in r
  {
    match FirstKeyID(Split(pgp, '\n'))
    case None => ""
    case Some(k) => k
  }

  /** `..., Key ID <key>` on one line gives `<key>` when the key holds no comma. */
  lemma PgpKeyIDOfSignature(prefix: string, key: string)
    requires '\n' !in prefix && '\n' !in key
    requires ',' !in key
    ensures PgpKeyID(prefix + KeyIDMarker + key) == key
  {
    var s := prefix + KeyIDMarker + key;
    var i := |prefix|;
    assert s[i..i + |KeyIDMarker|] == KeyIDMarker;
    assert OccursAt(s, KeyIDMarker, i);
    forall j | i < j
      ensures !OccursAt(s, KeyIDMarker, j)
    {
      OccursAtHead(s, KeyIDMarker, j);
      if j < i + |KeyIDMarker| {
        assert s[j] == KeyIDMarker[j - i];
      } else if j < |s| {
        assert s[j] == key[j - i - |KeyIDMarker|];
      }
    }
    var r := LastOccurrence(s, KeyIDMarker);
    assert r == Some(i);
    assert s[i + |KeyIDMarker|..] == key;
    assert '\n' !in s;
    SplitNoSeparator(s, '\n');
    assert FirstKeyID([s]) == KeyIDOnLine(s);
  }

  /** A signature text without the marker gives no key. */
  lemma PgpKeyIDWithoutMarker(pgp: string)
    requires forall j :: !OccursAt(pgp, KeyIDMarker, j)
    ensures PgpKeyID(pgp) == ""
  {
    var lines := Split(pgp, '\n');
    JoinSplit(pgp, '\n');
    NoMarkerInLines(lines);
  }

  lemma {:induction false} NoMarkerInLines(lines: seq<string>)
    requires forall j :: !OccursAt(Join(lines, '\n'), KeyIDMarker, j)
    ensures FirstKeyID(lines) == None
    decreases |lines|
  {
    if |lines| > 0 {
      var whole := Join(lines, '\n');
      if |lines| > 1 {
        assert whole == lines[0] + ['\n'] + Join(lines[1..], '\n');
      }
      forall j
        ensures !OccursAt(lines[0], KeyIDMarker, j)
      {
        if |lines| > 1 {
          OccursInConcat(lines[0] + ['\n'], Join(lines[1..], '\n'), KeyIDMarker, j);
          OccursInConcat(lines[0], ['\n'], KeyIDMarker, j);
        }
      }
      if |lines| > 1 {
        var rest := Join(lines[1..], '\n');
        forall j
          ensures !OccursAt(rest, KeyIDMarker, j)
        {
          OccursInConcat(lines[0] + ['\n'], rest, KeyIDMarker, j);
        }
        NoMarkerInLines(lines[1..]);
      }
    }
  }

  // ----- The conversion -----

  /** A package whose conversion does not panic in `getBgName`. */
  predicate SourceRpmConvertible(p: PackageInfo)
  {
    |p.sourceRpm| > 0 ==> '-' in p.sourceRpm
  }

  /** `name-version-release.arch`. */
  function Nvra(p: PackageInfo): string
  {
    p.name + "-" + p.version + "-" + p.release + "." + p.arch
  }

  /**
   * The manifest entry of one package: the package's own fields are carried over, the
   * source-package name is a proper prefix of the source rpm name, the source fields
   * are empty exactly when there is no source rpm, and the key is empty without a
   * signature and never spans lines.
   */
  function RpmOf(p: PackageInfo): (r: RPM)
    requires SourceRpmConvertible(p)
    ensures r.name == p.name && r.version == p.version && r.release == p.release
    ensures r.architecture == p.arch && r.summary == p.summary && r.nvra == Nvra(p)
    ensures r.srpmName <= p.sourceRpm && (p.sourceRpm != "" ==> |r.srpmName| < |p.sourceRpm|)
    ensures p.sourceRpm == "" <==> r.srpmNevra == ""
    ensures p.sourceRpm == "" ==> r.srpmName == ""
    ensures p.pgp == "" ==> r.gpg == ""
    ensures '\n' !in r.gpg
  {
    var bgName := if |p.sourceRpm| > 0 then GetBgName(p.sourceRpm) else "";
    var srpmNevra := if |p.sourceRpm| > 0 then bgName + "-" + IntToString(p.epoch) + ":" + EndChop(p.sourceRpm) else "";
    var pgpKeyID := if |p.pgp| > 0 then PgpKeyID(p.pgp) else "";
    RPM(p.arch, pgpKeyID, p.name, Nvra(p), p.release, bgName, srpmNevra, p.summary, p.version)
  }

  /** The manifest entries of a package list, one per package, in order. */
  function RpmsOf(ps: seq<PackageInfo>): (rs: seq<RPM>)
    requires forall i :: 0 <= i < |ps| ==> SourceRpmConvertible(ps[i])
    ensures |rs| == |ps|
  {
    if |ps| == 0 then [] else RpmsOf(ps[..|ps| - 1]) + [RpmOf(ps[|ps| - 1])]
  }

  /** Entry `i` of the manifest is the conversion of package `i`. */
  lemma {:induction false} RpmsOfAt(ps: seq<PackageInfo>, i: int)
    requires forall k :: 0 <= k < |ps| ==> SourceRpmConvertible(ps[k])
    requires 0 <= i < |ps|
    ensures RpmsOf(ps)[i] == RpmOf(ps[i])
    decreases |ps|
  {
    var init := ps[..|ps| - 1];
    assert RpmsOf(ps) == RpmsOf(init) + [RpmOf(ps[|ps| - 1])];
    if i < |ps| - 1 {
      assert init[i] == ps[i];
      RpmsOfAt(init, i);
    }
  }

  /** The conversion loop of `writeRPMManifest`: one entry per package, in order. */
  method ConvertPackages(pkgList: seq<PackageInfo>) returns (rpms: seq<RPM>)
    requires forall i :: 0 <= i < |pkgList| ==> SourceRpmConvertible(pkgList[i])
    ensures |rpms| == |pkgList|
    ensures forall i :: 0 <= i < |pkgList| ==> rpms[i] == RpmOf(pkgList[i])
  {
    rpms := [];
    var i := 0;
    while i < |pkgList|
      invariant 0 <= i <= |pkgList|
      invariant rpms == RpmsOf(pkgList[..i])
    {
      var rpm := RpmOf(pkgList[i]);
      assert pkgList[..i + 1][..i] == pkgList[..i];
      rpms := rpms + [rpm];
      i := i + 1;
    }
    assert pkgList[..i] == pkgList;
    forall k | 0 <= k < |pkgList|
      ensures rpms[k] == RpmOf(pkgList[k])
    {
      RpmsOfAt(pkgList, k);
    }
  }

  /**
   * `writeRPMManifest`: a failing package listing is logged and an empty manifest is
   * still written; the only error is the writer's.
   */
  method WriteRPMManifest(pkgList: Result<seq<PackageInfo>>, writer: ArtifactWriter)
    returns (manifest: RPMManifest, err: Option<string>)
    requires pkgList.Ok? ==> forall i :: 0 <= i < |pkgList.value| ==> SourceRpmConvertible(pkgList.value[i])
    ensures pkgList.Err? ==> manifest.rpms == []
    ensures pkgList.Ok? ==> |manifest.rpms| == |pkgList.value|
    ensures pkgList.Ok? ==> forall i :: 0 <= i < |pkgList.value| ==> manifest.rpms[i] == RpmOf(pkgList.value[i])
    ensures err.Some? <==> writer.Writer? && writer.writeErr.Some?
    ensures err.Some? ==> err.value == "failed to save file to artifacts directory: " + writer.writeErr.value
  {
    var pkgs := if pkgList.Ok? then pkgList.value else [];
    var rpms := ConvertPackages(pkgs);
    manifest := RPMManifest(rpms);
    err := None;
    if writer.Writer? && writer.writeErr.Some? {
      err := Some("failed to save file to artifacts directory: " + writer.writeErr.value);
    }
  }

  // ----- Properties of an entry -----

  /** The source fields of `name-version-release.rpm` under the usual rpm naming. */
  lemma SourceFieldsOfWellFormedRpm(p: PackageInfo, name: string, version: string, release: string)
    requires p.sourceRpm == name + "-" + version + "-" + release + ".rpm"
    requires '-' !in version && '-' !in release
    requires forall j :: !DashDigitAt(name, j)
    requires |version| > 0 && IsDigit(version[0])
    requires '\n' !in version && '\n' !in release
    ensures SourceRpmConvertible(p)
    ensures RpmOf(p).srpmName == name
    ensures RpmOf(p).srpmNevra == name + "-" + IntToString(p.epoch) + ":" + (version + "-" + release)
  {
    var src := p.sourceRpm;
    assert '-' in src by {
      assert src[|name|] == '-';
    }
    assert src == name + "-" + version + "-" + (release + ".rpm");
    GetBgNameDropsVersionAndRelease(name, version, release + ".rpm");
    assert GetBgName(src) == name;
    EndChopOfSourceRpm(name, version, release);
    assert EndChop(src) == version + "-" + release;
  }

  /** The name rule of `getBgName`, applied to an NVRA, gives back the package name. */
  lemma NvraNameRecoverable(p: PackageInfo)
    requires '-' !in p.version && '-' !in p.release && '-' !in p.arch
    ensures GetBgName(Nvra(p)) == p.name
  {
    assert Nvra(p) == p.name + "-" + p.version + "-" + (p.release + "." + p.arch);
    GetBgNameDropsVersionAndRelease(p.name, p.version, p.release + "." + p.arch);
  }
}
