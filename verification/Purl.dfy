/**
 Package URLs as the SBOM generator prints them (scripts/generate_sbom.py:118, 191) and as the two
 scanner paths parse them (scripts/scan_vulnerabilities.py:399-428, 646-656), without escaping.
 */
module Purl {
  import opened Common

  datatype Package = Package(ecosystem: string, name: string, version: string)

  function Print(eco: string, name: string, version: string): string {
    "pkg:" + eco + "/" + name + "@" + version
  }

  // ----- Python string operations -----

  /** `s.replace("pkg:", "")`. */
  function DropMarks(s: string): string
    decreases |s|
  {
    if |s| < 4 then s
    else if s[..4] == "pkg:" then DropMarks(s[4..])
    else [s[0]] + DropMarks(s[1..])
  }

  /** `s.split(c, 1)`: the parts around the first occurrence, if there is one. */
  function SplitFirst(s: string, c: char): Option<(string, string)> {
    if s == "" then None
    else if s[0] == c then Some(("", s[1..]))
    else
      var r := SplitFirst(s[1..], c);
      if r.None? then None else Some(([s[0]] + r.value.0, r.value.1))
  }

  /** `s.rsplit(c, 1)`: the parts around the last occurrence, if there is one. */
  function SplitLast(s: string, c: char): Option<(string, string)> {
    if s == "" then None
    else
      var r := SplitLast(s[1..], c);
      if r.Some? then Some(([s[0]] + r.value.0, r.value.1))
      else if s[0] == c then Some(("", s[1..]))
      else None
  }

  /** `s.split("#")[0]`. */
  function BeforeHash(s: string): string {
    var r := SplitFirst(s, '#');
    if r.None? then s else r.value.0
  }

  // ----- The two parsers -----

  /** The online path: unknown ecosystems and references without a version are skipped. */
  function ParseOnline(purl: string): Option<Package> {
    if !("pkg:" <= purl) then None
    else
      var parts := SplitFirst(DropMarks(purl), '/');
      if parts.None? || (parts.value.0 != "pypi" && parts.value.0 != "npm") then None
      else
        var (eco, rest) := parts.value;
        var scoped := "@" <= rest;
        var sub := SplitFirst(if scoped then rest[1..] else rest, '@');
        if sub.None? then None
        else Some(Package(if eco == "pypi" then "PyPI" else "npm",
                          (if scoped then "@" else "") + sub.value.0, BeforeHash(sub.value.1)))
  }

  /** The offline path: any ecosystem, and "unknown" for a missing version. */
  function ParseOffline(purl: string): Option<Package> {
    if !("pkg:" <= purl) then None
    else
      var parts := SplitFirst(DropMarks(purl), '/');
      if parts.None? then None
      else
        var (eco, rest) := parts.value;
        var sub := SplitLast(rest, '@');
        var ecosystem := if eco == "pypi" then "PyPI" else eco;
        if sub.None? then Some(Package(ecosystem, rest, "unknown"))
        else Some(Package(ecosystem, sub.value.0, BeforeHash(sub.value.1)))
  }

  // ----- Facts about the operations -----

  lemma {:induction false} SplitFirstOf(a: string, c: char, b: string)
    requires c !in a
    ensures SplitFirst(a + [c] + b, c) == Some((a, b))
  {
    if a == "" {
      assert a + [c] + b == [c] + b;
    } else {
      var s := a + [c] + b;
      assert s[0] == a[0] && s[1..] == a[1..] + [c] + b && a == [a[0]] + a[1..];
      SplitFirstOf(a[1..], c, b);
    }
  }

  lemma {:induction false} SplitFirstParts(s: string, c: char)
    ensures SplitFirst(s, c).None? <==> c !in s
    ensures SplitFirst(s, c).Some? ==>
              var (a, b) := SplitFirst(s, c).value; s == a + [c] + b && c !in a
  {
    if s != "" && s[0] != c {
      SplitFirstParts(s[1..], c);
    }
  }

  lemma {:induction false} SplitLastParts(s: string, c: char)
    ensures SplitLast(s, c).None? <==> c !in s
    ensures SplitLast(s, c).Some? ==>
              var (a, b) := SplitLast(s, c).value; s == a + [c] + b && c !in b
  {
    if s != "" {
      SplitLastParts(s[1..], c);
    }
  }

  lemma {:induction false} SplitLastOf(a: string, c: char, b: string)
    requires c !in b
    ensures SplitLast(a + [c] + b, c) == Some((a, b))
  {
    if a == "" {
      var s := a + [c] + b;
      assert s[0] == c && s[1..] == b;
      SplitLastParts(b, c);
    } else {
      var s := a + [c] + b;
      assert s[0] == a[0] && s[1..] == a[1..] + [c] + b && a == [a[0]] + a[1..];
      SplitLastOf(a[1..], c, b);
    }
  }

  lemma BeforeHashFacts(s: string)
    ensures BeforeHash(s) == s <==> '#' !in s
    ensures |BeforeHash(s)| <= |s|
  {
    SplitFirstParts(s, '#');
  }

  /** Removing marks shortens exactly the strings that have one, and keeps every `@`. */
  lemma {:induction false} DropMarksFacts(s: string)
    ensures if Contains(s, "pkg:") then |DropMarks(s)| < |s| else DropMarks(s) == s
    ensures '@' in s ==> '@' in DropMarks(s)
    decreases |s|
  {
    if |s| < 4 {
      NoRoom(s);
    } else if s[..4] == "pkg:" {
      assert "pkg:" <= s;
      DropMarksFacts(s[4..]);
      assert s == "pkg:" + s[4..];
    } else {
      assert !("pkg:" <= s);
      DropMarksFacts(s[1..]);
      assert s == [s[0]] + s[1..];
    }
  }

  lemma {:induction false} NoRoom(s: string)
    requires |s| < 4
    ensures !Contains(s, "pkg:")
  {
    if s != "" {
      NoRoom(s[1..]);
    }
  }

  lemma DropOne(c: char, s: string)
    requires c != 'p' || (s != "" && s[0] != 'k')
    ensures DropMarks([c] + s) == [c] + DropMarks(s)
  {
    var t := [c] + s;
    assert t[1..] == s;
    if |t| >= 4 {
      assert t[..4][0] == c && t[..4][1] == s[0] && "pkg:"[0] == 'p' && "pkg:"[1] == 'k';
      assert t[..4] != "pkg:";
    }
  }

  /** A prefix in which every `p` is followed by something other than `k` comes through unharmed. */
  lemma {:induction false} DropKeeps(prefix: string, rest: string)
    requires forall i | 0 <= i < |prefix| && prefix[i] == 'p' :: i + 1 < |prefix| && prefix[i + 1] != 'k'
    ensures DropMarks(prefix + rest) == prefix + DropMarks(rest)
  {
    if prefix == "" {
      assert prefix + rest == rest && prefix + DropMarks(rest) == DropMarks(rest);
    } else {
      var c, tail := prefix[0], prefix[1..];
      DropKeeps(tail, rest);
      DropOne(c, tail + rest);
      assert prefix == [c] + tail;
      assert prefix + rest == [c] + (tail + rest);
      assert prefix + DropMarks(rest) == [c] + (tail + DropMarks(rest));
    }
  }

  /** The marker and the ecosystem part come through unharmed, whatever follows them. */
  lemma DropAfterEcosystem(eco: string, rest: string)
    requires eco == "pypi" || eco == "npm"
    ensures DropMarks("pkg:" + eco + "/" + rest) == eco + "/" + DropMarks(rest)
  {
    var s, tail := "pkg:" + eco + "/" + rest, eco + "/" + rest;
    assert s == "pkg:" + tail;
    assert s[..4] == "pkg:" && s[4..] == tail;
    assert tail == (eco + "/") + rest;
    DropKeeps(eco + "/", rest);
  }

  // ----- Round trips -----

  /** What both parsers see of a printed reference. */
  lemma PrintedParts(eco: string, name: string, version: string)
    requires eco == "pypi" || eco == "npm"
    ensures "pkg:" <= Print(eco, name, version)
    ensures SplitFirst(DropMarks(Print(eco, name, version)), '/') == Some((eco, DropMarks(name + "@" + version)))
  {
    var rest := name + "@" + version;
    assert Print(eco, name, version) == "pkg:" + eco + "/" + rest;
    DropAfterEcosystem(eco, rest);
    assert eco + "/" + DropMarks(rest) == eco + ['/'] + DropMarks(rest);
    SplitFirstOf(eco, '/', DropMarks(rest));
  }

  /** The name without the `@` of an npm scope. */
  function Unscoped(name: string): string {
    if "@" <= name then name[1..] else name
  }

  /** The online parser recovers what was printed exactly under these conditions on name and version. */
  predicate OnlineSafe(name: string, version: string) {
    name != "" && '@' !in Unscoped(name) && '#' !in version && !Contains(name + "@" + version, "pkg:")
  }

  /** The part after the ecosystem, as the online parser reads it. */
  function OnlineTail(rest: string): Option<(string, string)> {
    var scoped := "@" <= rest;
    var sub := SplitFirst(if scoped then rest[1..] else rest, '@');
    if sub.None? then None else Some(((if scoped then "@" else "") + sub.value.0, BeforeHash(sub.value.1)))
  }

  lemma OnlineTailShape(rest: string)
    ensures OnlineTail(rest).Some? ==> |OnlineTail(rest).value.0| + 1 + |OnlineTail(rest).value.1| <= |rest|
    ensures OnlineTail(rest).Some? ==> OnlineTail(rest).value.0 != "" && '@' !in Unscoped(OnlineTail(rest).value.0)
    ensures OnlineTail(rest).Some? ==> '#' !in OnlineTail(rest).value.1
  {
    var body := if "@" <= rest then rest[1..] else rest;
    SplitFirstParts(body, '@');
    var sub := SplitFirst(body, '@');
    if sub.Some? {
      BeforeHashFacts(sub.value.1);
      SplitFirstParts(sub.value.1, '#');
      assert !("@" <= rest) ==> sub.value.0 != "";
    }
  }

  lemma OnlineTailOf(name: string, version: string)
    requires name != "" && '@' !in Unscoped(name) && '#' !in version
    ensures OnlineTail(name + "@" + version) == Some((name, version))
  {
    var rest := name + "@" + version;
    assert "@" <= rest <==> "@" <= name;
    assert (if "@" <= rest then rest[1..] else rest) == Unscoped(name) + ['@'] + version;
    SplitFirstOf(Unscoped(name), '@', version);
    BeforeHashFacts(version);
    assert (if "@" <= rest then "@" else "") + Unscoped(name) == name;
  }

  lemma OnlineRoundTrip(eco: string, name: string, version: string)
    requires eco == "pypi" || eco == "npm"
    ensures ParseOnline(Print(eco, name, version))
         == Some(Package(if eco == "pypi" then "PyPI" else "npm", name, version))
       <==> OnlineSafe(name, version)
  {
    var rest := name + "@" + version;
    PrintedParts(eco, name, version);
    DropMarksFacts(rest);
    OnlineTailShape(DropMarks(rest));
    if OnlineSafe(name, version) {
      OnlineTailOf(name, version);
    }
  }

  /** The offline parser allows `@` in names but not in versions. */
  predicate OfflineSafe(name: string, version: string) {
    '@' !in version && '#' !in version && !Contains(name + "@" + version, "pkg:")
  }

  lemma OfflineRoundTrip(eco: string, name: string, version: string)
    requires eco == "pypi" || eco == "npm"
    ensures ParseOffline(Print(eco, name, version))
         == Some(Package(if eco == "pypi" then "PyPI" else "npm", name, version))
       <==> OfflineSafe(name, version)
  {
    var rest := name + "@" + version;
    var seen := DropMarks(rest);
    PrintedParts(eco, name, version);
    DropMarksFacts(rest);
    assert rest[|name|] == '@';
    SplitLastParts(seen, '@');
    var sub := SplitLast(seen, '@').value;
    BeforeHashFacts(sub.1);
    SplitFirstParts(sub.1, '#');
    if OfflineSafe(name, version) {
      assert rest == name + ['@'] + version;
      SplitLastOf(name, '@', version);
      BeforeHashFacts(version);
    }
  }

  lemma OneMarkIff(a: string, b: string)
    requires '@' !in a
    ensures multiset(a + ['@'] + b)['@'] == 1 <==> '@' !in b
  {
    assert multiset(a)['@'] == 0;
    assert '@' in b <==> '@' in multiset(b);
  }

  /** Splitting at a mark with something before it splits at the last mark exactly when none follows. */
  lemma LastMarkIff(front: string, b: string)
    ensures SplitLast(front + ['@'] + b, '@').Some?
    ensures SplitLast(front + ['@'] + b, '@').value.0 == front <==> '@' !in b
    ensures '@' !in b ==> SplitLast(front + ['@'] + b, '@').value.1 == b
  {
    var seen := front + ['@'] + b;
    assert seen[|front|] == '@';
    SplitLastParts(seen, '@');
    var last := SplitLast(seen, '@').value;
    if last.0 == front {
      assert seen[|front| + 1..] == b && seen == front + ['@'] + last.1;
      assert (front + ['@'] + last.1)[|front| + 1..] == last.1;
    }
    if '@' !in b {
      SplitLastOf(front, '@', b);
    }
  }

  /** What the offline parser makes of the part after the ecosystem, when it has a version. */
  function OfflineTail(rest: string): Option<(string, string)> {
    var sub := SplitLast(rest, '@');
    if sub.None? then None else Some((sub.value.0, BeforeHash(sub.value.1)))
  }

  lemma TailsAgreeIff(seen: string)
    requires '@' in seen
    ensures OnlineTail(seen) == OfflineTail(seen) <==> multiset(Unscoped(seen))['@'] == 1
  {
    var body := Unscoped(seen);
    SplitFirstParts(body, '@');
    SplitLastParts(seen, '@');
    if SplitFirst(body, '@').None? {
      assert '@' !in multiset(body);
    } else {
      var (a, b) := SplitFirst(body, '@').value;
      var front := (if "@" <= seen then "@" else "") + a;
      assert seen == front + ['@'] + b;
      OneMarkIff(a, b);
      LastMarkIff(front, b);
    }
  }

  /**
   The two parsers agree on a printed reference exactly when, past the `@` of a scope, there is
   just one `@` in what is left of name and version once embedded markers are dropped.
   */
  lemma ParsersAgreeIff(eco: string, name: string, version: string)
    requires eco == "pypi" || eco == "npm"
    ensures ParseOnline(Print(eco, name, version)) == ParseOffline(Print(eco, name, version))
       <==> multiset(Unscoped(DropMarks(name + "@" + version)))['@'] == 1
  {
    var seen := DropMarks(name + "@" + version);
    PrintedParts(eco, name, version);
    DropMarksFacts(name + "@" + version);
    assert (name + "@" + version)[|name|] == '@';
    SplitLastParts(seen, '@');
    TailsAgreeIff(seen);
    var ecosystem, off := if eco == "pypi" then "PyPI" else "npm", OfflineTail(seen).value;
    assert ParseOffline(Print(eco, name, version)) == Some(Package(ecosystem, off.0, off.1));
    var on := OnlineTail(seen);
    assert ParseOnline(Print(eco, name, version))
        == if on.None? then None else Some(Package(ecosystem, on.value.0, on.value.1));
  }

  /** In particular they agree where both recover what was printed. */
  lemma ParsersAgree(eco: string, name: string, version: string)
    requires eco == "pypi" || eco == "npm"
    requires OnlineSafe(name, version) && '@' !in version
    ensures ParseOnline(Print(eco, name, version)) == ParseOffline(Print(eco, name, version))
  {
    OnlineRoundTrip(eco, name, version);
    OfflineRoundTrip(eco, name, version);
  }

  // ----- References of any ecosystem -----

  /** What is left of a reference after its scheme: the ecosystem up to the first slash, and the rest. */
  predicate Splits(purl: string, eco: string, rest: string) {
    "pkg:" <= purl && DropMarks(purl) == eco + "/" + rest && '/' !in eco
  }

  /** Past a scope the text has an `@`, so a version follows. */
  predicate HasVersion(rest: string) {
    '@' in Unscoped(rest)
  }

  /** The online parser reads PyPI and npm references with a version, and nothing else. */
  lemma OnlineReadsIff(purl: string)
    ensures ParseOnline(purl).Some? <==>
            exists eco, rest :: Splits(purl, eco, rest) && eco in ["pypi", "npm"] && HasVersion(rest)
  {
    SplitFirstParts(DropMarks(purl), '/');
    var parts := SplitFirst(DropMarks(purl), '/');
    if "pkg:" <= purl && parts.Some? {
      var (eco, rest) := parts.value;
      assert Splits(purl, eco, rest);
      SplitFirstParts(Unscoped(rest), '@');
    }
    forall eco, rest | Splits(purl, eco, rest) ensures parts == Some((eco, rest)) {
      assert eco + "/" + rest == eco + ['/'] + rest;
      SplitFirstOf(eco, '/', rest);
    }
  }

  /** The offline parser reads any ecosystem; without a version it answers "unknown". */
  lemma OfflineReads(purl: string, eco: string, rest: string)
    requires Splits(purl, eco, rest)
    ensures
      var p := ParseOffline(purl);
      p.Some? && p.value.ecosystem == (if eco == "pypi" then "PyPI" else eco)
      && ('@' !in rest ==> p.value.name == rest && p.value.version == "unknown")
      && ('@' in rest ==> p.value.name + "@" + p.value.version <= rest && '@' !in p.value.version)
  {
    assert eco + "/" + rest == eco + ['/'] + rest;
    SplitFirstOf(eco, '/', rest);
    SplitLastParts(rest, '@');
    if '@' in rest {
      var (name, version) := SplitLast(rest, '@').value;
      BeforeHashPrefix(version);
      assert name + "@" + BeforeHash(version) <= name + "@" + version;
    }
  }

  lemma BeforeHashPrefix(s: string)
    ensures BeforeHash(s) <= s && '#' !in BeforeHash(s)
    ensures |BeforeHash(s)| < |s| ==> s[|BeforeHash(s)|] == '#'
  {
    SplitFirstParts(s, '#');
  }
}
