/** Names of the CronJobs and Jobs of a repository: bounded, with a checksum standing in
    for what is cut off. Names are Kubernetes names, so a character is a byte. */
module JobNames {
  import opened Text

  const MAX_CRONJOB_CHARS := 52
  const ADLER_BASE := 65521

  // ------------------------------------------------------------- the checksum

  /** The two sums of Adler-32 (section 2.2 of RFC 1950). */
  function AdlerSums(s: string): (r: (int, int))
    ensures 0 <= r.0 < ADLER_BASE && 0 <= r.1 < ADLER_BASE
  {
    if s == "" then (1, 0)
    else
      var (a, b) := AdlerSums(s[..|s| - 1]);
      var a1 := (a + s[|s| - 1] as int) % ADLER_BASE;
      (a1, (b + a1) % ADLER_BASE)
  }

  function Adler32(s: string): nat {
    AdlerSums(s).1 * 65536 + AdlerSums(s).0
  }

  function Sum(s: string): nat {
    if s == "" then 0 else Sum(s[..|s| - 1]) + s[|s| - 1] as nat
  }

  /** The sums, each from 1 on, of all the beginnings of a text. */
  function SumOfSums(s: string): nat {
    if s == "" then 0 else SumOfSums(s[..|s| - 1]) + 1 + Sum(s)
  }

  lemma AddReduced(x: nat, y: nat)
    ensures (x % 65521 + y) % 65521 == (x + y) % 65521
  {
  }

  /** The checksum without the reductions on the way. */
  lemma {:induction false} ChecksumIs(s: string)
    ensures AdlerSums(s) == ((1 + Sum(s)) % 65521, SumOfSums(s) % 65521)
    ensures Adler32(s) == SumOfSums(s) % 65521 * 65536 + (1 + Sum(s)) % 65521
  {
    if s != "" {
      var t := s[..|s| - 1];
      ChecksumIs(t);
      AddReduced(1 + Sum(t), s[|s| - 1] as nat);
      AddReduced(SumOfSums(t), (1 + Sum(s)) % 65521);
      AddReduced(1 + Sum(s), SumOfSums(t));
    }
  }

  lemma {:induction false} DecimalLength(n: nat, digits: nat, bound: nat)
    requires digits >= 1 && bound == Pow10(digits) && n < bound
    ensures |Decimal(n)| <= digits
  {
    if n >= 10 {
      assert digits > 1;
      DecimalLength(n / 10, digits - 1, Pow10(digits - 1));
    }
  }

  function Pow10(n: nat): nat {
    if n == 0 then 1 else 10 * Pow10(n - 1)
  }

  /** The checksum takes at most ten characters, which is what the truncation sets aside. */
  lemma ChecksumFitsTenDigits(s: string)
    ensures |Decimal(Adler32(s))| <= 10
  {
    var r := AdlerSums(s);
    assert Adler32(s) <= 65520 * 65536 + 65520;
    assert Pow10(5) == 100000;
    assert Pow10(10) == 10_000_000_000;
    DecimalLength(Adler32(s), 10, Pow10(10));
  }

  // ------------------------------------------------------------- names

  function TruncateAndHash(name: string, length: nat): string {
    if |name| <= length then name
    else if length < 11 then name[..length]
    else name[..length - 11] + "-" + Decimal(Adler32(name[length - 11..]))
  }

  lemma TruncatedLength(name: string, length: nat)
    ensures |TruncateAndHash(name, length)| <= length
  {
    if |name| > length >= 11 {
      ChecksumFitsTenDigits(name[length - 11..]);
    }
  }

  /** A pattern with two placeholders, as the text around them. */
  datatype Pattern = Pattern(before: string, between: string, after: string) {
    function Length(): nat {
      |before| + |between| + |after|
    }
  }

  function Fill(pattern: Pattern, namespace: string, name: string, addDash: bool): (r: string)
    ensures |r| == pattern.Length() + |namespace| + |name| + if addDash then 1 else 0
  {
    pattern.before + namespace + pattern.between + name + pattern.after + if addDash then "-" else ""
  }

  function NameRoom(room: nat, addDash: bool): nat {
    if room % 2 > 0 && !addDash then room / 2 + 1 else room / 2
  }

  function GenerateJobName(namespace: string, name: string, pattern: Pattern, addDash: bool): string
    requires pattern.Length() <= MAX_CRONJOB_CHARS
  {
    var room := MAX_CRONJOB_CHARS - pattern.Length();
    Fill(pattern, TruncateAndHash(namespace, room / 2), TruncateAndHash(name, NameRoom(room, addDash)), addDash)
  }

  const CRON_JOB := Pattern("apprepo-", "-sync-", "")
  const CLEANUP_JOB := Pattern("apprepo-", "-cleanup-", "-")

  function CronJobName(namespace: string, name: string): string {
    GenerateJobName(namespace, name, CRON_JOB, false)
  }

  function SyncJobPrefix(namespace: string, name: string): string {
    GenerateJobName(namespace, name, CRON_JOB, true)
  }

  function DeleteJobName(namespace: string, name: string): string {
    GenerateJobName(namespace, name, CLEANUP_JOB, false)
  }

  /** What the names spell of a repository whose parts are not cut. */
  lemma NamesSpell(namespace: string, name: string)
    ensures |namespace| <= 19 && |name| <= 19 ==>
      && CronJobName(namespace, name) == "apprepo-" + namespace + "-sync-" + name
      && SyncJobPrefix(namespace, name) == "apprepo-" + namespace + "-sync-" + name + "-"
    ensures |namespace| <= 17 && |name| <= 17 ==>
      DeleteJobName(namespace, name) == "apprepo-" + namespace + "-cleanup-" + name + "-"
  {
  }

  /** The bound holds for every pattern; a dash after it costs one more character, unless the
      pattern leaves an odd number of characters, whose last one the dash takes. */
  lemma GeneratedLength(namespace: string, name: string, pattern: Pattern, addDash: bool)
    requires pattern.Length() <= MAX_CRONJOB_CHARS
    ensures |GenerateJobName(namespace, name, pattern, addDash)|
      <= MAX_CRONJOB_CHARS + if addDash && pattern.Length() % 2 == 0 then 1 else 0
  {
    var room := MAX_CRONJOB_CHARS - pattern.Length();
    TruncatedLength(namespace, room / 2);
    TruncatedLength(name, NameRoom(room, addDash));
    Halves(pattern.Length(), addDash);
  }

  lemma Halves(length: nat, addDash: bool)
    requires length <= MAX_CRONJOB_CHARS
    ensures var room := MAX_CRONJOB_CHARS - length;
      room / 2 + NameRoom(room, addDash) == if length % 2 > 0 && addDash then room - 1 else room
  {
  }

  lemma NamesAreBounded(namespace: string, name: string)
    ensures |CronJobName(namespace, name)| <= 52
    ensures |DeleteJobName(namespace, name)| <= 52
    ensures |SyncJobPrefix(namespace, name)| <= 53
  {
    GeneratedLength(namespace, name, CRON_JOB, false);
    GeneratedLength(namespace, name, CRON_JOB, true);
    GeneratedLength(namespace, name, CLEANUP_JOB, false);
  }

  // ------------------------------------------------------------- uniqueness

  predicate Fits(namespace: string, name: string) {
    |namespace| <= 19 && |name| <= 19
  }

  lemma NameOfFitting(namespace: string, name: string)
    requires Fits(namespace, name)
    ensures CronJobName(namespace, name) == "apprepo-" + (namespace + "-sync-" + name)
  {
    assert CronJobName(namespace, name) == "apprepo-" + namespace + "-sync-" + name + "" + "";
  }

  /** The text between the two parts occurs earlier in the longer namespace. */
  lemma ClashIsInNamespace(ns1: string, n1: string, ns2: string, n2: string)
    requires |ns1| < |ns2| && ns1 + "-sync-" + n1 == ns2 + "-sync-" + n2
    ensures ContainsAt(ns2 + "-", "-sync-", |ns1|)
  {
    var w := ns1 + "-sync-" + n1;
    var k, d := |ns1|, |ns2| - |ns1|;
    assert w[k..k + 6] == "-sync-";
    assert w[|ns2|] == '-';
    assert w[k + 1] == 's' && w[k + 2] == 'y' && w[k + 3] == 'n' && w[k + 4] == 'c';
    assert d >= 5;
    assert w[..|ns2| + 1] == ns2 + "-";
    assert (ns2 + "-")[k..k + 6] == w[k..k + 6];
  }

  /** Two repositories whose names fit have different CronJob names when neither namespace,
      followed by a dash, contains the text between the two parts. */
  lemma FittingNamesAreDistinct(ns1: string, n1: string, ns2: string, n2: string)
    requires Fits(ns1, n1) && Fits(ns2, n2)
    requires !Contains(ns1 + "-", "-sync-") && !Contains(ns2 + "-", "-sync-")
    ensures CronJobName(ns1, n1) == CronJobName(ns2, n2) <==> ns1 == ns2 && n1 == n2
  {
    NameOfFitting(ns1, n1);
    NameOfFitting(ns2, n2);
    if CronJobName(ns1, n1) == CronJobName(ns2, n2) {
      var w1, w2 := ns1 + "-sync-" + n1, ns2 + "-sync-" + n2;
      assert w1 == CronJobName(ns1, n1)[8..] && w2 == CronJobName(ns2, n2)[8..];
      if |ns1| < |ns2| {
        ClashIsInNamespace(ns1, n1, ns2, n2);
        assert false;
      } else if |ns2| < |ns1| {
        ClashIsInNamespace(ns2, n2, ns1, n1);
        assert false;
      } else {
        assert ns1 == w1[..|ns1|] && n1 == w1[|ns1| + 6..];
        assert ns2 == w2[..|ns2|] && n2 == w2[|ns2| + 6..];
      }
    }
  }

  ghost predicate Clashes(namespace: string, other: string, name: string, otherName: string) {
    && 0 < |other| < |namespace| && name != "" && otherName != ""
    && Fits(namespace, name) && Fits(other, otherName)
    && CronJobName(namespace, name) == CronJobName(other, otherName)
  }

  /** The condition is exact: a namespace (which starts with no dash) clashes with a shorter
      one, over some names that fit, just when it contains that text. */
  lemma ClashIff(namespace: string)
    requires 0 < |namespace| <= 19 && namespace[0] != '-'
    ensures (exists other, name, otherName :: Clashes(namespace, other, name, otherName))
      <==> Contains(namespace + "-", "-sync-")
  {
    if Contains(namespace + "-", "-sync-") {
      var i :| ContainsAt(namespace + "-", "-sync-", i);
      var other := namespace[..i];
      var t := namespace + "-sync-" + "x";
      var otherName := t[i + 6..];
      assert t[i..i + 6] == (namespace + "-")[i..i + 6];
      assert (namespace + "-")[i] == "-sync-"[0];
      assert t == other + "-sync-" + otherName;
      NameOfFitting(namespace, "x");
      NameOfFitting(other, otherName);
      assert Clashes(namespace, other, "x", otherName);
    }
    if exists other, name, otherName :: Clashes(namespace, other, name, otherName) {
      var other, name, otherName :| Clashes(namespace, other, name, otherName);
      NameOfFitting(namespace, name);
      NameOfFitting(other, otherName);
      assert namespace + "-sync-" + name == CronJobName(namespace, name)[8..];
      assert other + "-sync-" + otherName == CronJobName(other, otherName)[8..];
      ClashIsInNamespace(other, otherName, namespace, name);
    }
  }

  function AdlerStep(sums: (int, int), c: char): (int, int) {
    var a := (sums.0 + c as int) % ADLER_BASE;
    (a, (sums.1 + a) % ADLER_BASE)
  }

  lemma AdlerSnoc(s: string, x: char)
    ensures AdlerSums(s + [x]) == AdlerStep(AdlerSums(s), x)
  {
    assert (s + [x])[..|s|] == s;
  }

  lemma AdlerTwo(s: string, x: char, y: char)
    ensures AdlerSums(s + [x] + [y]) == AdlerStep(AdlerStep(AdlerSums(s), x), y)
  {
    AdlerSnoc(s, x);
    AdlerSnoc(s + [x], y);
  }

  lemma AdlerAppend(s: string, x: char, y: char, z: char)
    ensures AdlerSums(s + [x] + [y] + [z]) == AdlerStep(AdlerStep(AdlerStep(AdlerSums(s), x), y), z)
  {
    AdlerTwo(s, x, y);
    AdlerSnoc(s + [x] + [y], z);
  }

  lemma ModAdd(a: int, b: int)
    ensures (a % ADLER_BASE + b) % ADLER_BASE == (a + b) % ADLER_BASE
  {
  }

  lemma SameSums(a: int, b: int)
    ensures AdlerStep(AdlerStep(AdlerStep((a, b), 'b'), 'd'), 'b')
      == AdlerStep(AdlerStep(AdlerStep((a, b), 'c'), 'b'), 'c')
  {
    ThreeSteps(a, b, 'b', 'd', 'b');
    ThreeSteps(a, b, 'c', 'b', 'c');
  }

  lemma ThreeSteps(a: int, b: int, x: char, y: char, z: char)
    ensures AdlerStep(AdlerStep(AdlerStep((a, b), x), y), z)
      == ((a + x as int + y as int + z as int) % ADLER_BASE,
          (b + 3 * a + 3 * x as int + 2 * y as int + z as int) % ADLER_BASE)
  {
    var a1, a2, a3 := a + x as int, a + x as int + y as int, a + x as int + y as int + z as int;
    assert AdlerStep((a, b), x) == (a1 % ADLER_BASE, (b + a1) % ADLER_BASE) by { OneStep(a, b, x); }
    OneStep(a1, b + a1, y);
    OneStep(a2, b + a1 + a2, z);
  }

  /** Reducing the sums beforehand does not change a step. */
  lemma OneStep(a: int, b: int, x: char)
    ensures AdlerStep((a % ADLER_BASE, b % ADLER_BASE), x) == AdlerStep((a, b), x)
      == ((a + x as int) % ADLER_BASE, (b + a + x as int) % ADLER_BASE)
  {
    var a1 := a + x as int;
    ModAdd(a, x as int);
    ModAdd(a1, b);
    ModAdd(b, a1 % ADLER_BASE);
  }

  /** The checksum does not make long names unique: these two names of the same namespace
      share their CronJob whatever they start with, once both are cut. */
  lemma LongNamesCanClash(namespace: string, start: string)
    requires |start| >= 17
    ensures CronJobName(namespace, start + "bdb") == CronJobName(namespace, start + "cbc")
    ensures start + "bdb" != start + "cbc"
  {
    var s := start[8..];
    assert (start + "bdb")[8..] == s + ['b'] + ['d'] + ['b'] && (start + "cbc")[8..] == s + ['c'] + ['b'] + ['c'];
    AdlerAppend(s, 'b', 'd', 'b');
    AdlerAppend(s, 'c', 'b', 'c');
    SameSums(AdlerSums(s).0, AdlerSums(s).1);
    CutNamesAgreeIff(namespace, start + "bdb", start + "cbc");
    assert (start + "bdb")[|start|] == 'b' && (start + "cbc")[|start|] == 'c';
  }

  /** Of two names that are cut, the generated CronJob names agree just when the names agree in
      their first eight characters and in the checksum of the rest. */
  lemma CutNamesAgreeIff(namespace: string, n1: string, n2: string)
    requires |n1| > 19 && |n2| > 19
    ensures CronJobName(namespace, n1) == CronJobName(namespace, n2)
      <==> n1[..8] == n2[..8] && Adler32(n1[8..]) == Adler32(n2[8..])
  {
    SameNamePart(namespace, n1, n2, CRON_JOB);
    if n1[..8] == n2[..8] && Adler32(n1[8..]) == Adler32(n2[8..]) {
      SameTruncation(n1, n2, 19);
    }
    if TruncateAndHash(n1, 19) == TruncateAndHash(n2, 19) {
      CutParts(n1, n2);
    }
  }

  /** A name that is cut and one that fits have the same CronJob name just when the second
      spells what the first is cut to. */
  lemma CutMeetsFittingIff(namespace: string, n1: string, n2: string)
    requires |n1| > 19 >= |n2|
    ensures CronJobName(namespace, n1) == CronJobName(namespace, n2)
      <==> n2 == n1[..8] + "-" + Decimal(Adler32(n1[8..]))
  {
    SameNamePart(namespace, n1, n2, CRON_JOB);
  }

  /** So no name that is cut has a CronJob of its own: some other name, which fits, shares it.
      The same goes for namespaces. */
  lemma EveryCutNameClashes(namespace: string, name: string)
    ensures |name| > 19 ==>
      exists other :: other != name && |other| <= 19 && CronJobName(namespace, other) == CronJobName(namespace, name)
    ensures |namespace| > 19 ==>
      exists other :: other != namespace && |other| <= 19 && CronJobName(other, name) == CronJobName(namespace, name)
  {
    var shortName, shortNamespace := TruncateAndHash(name, 19), TruncateAndHash(namespace, 19);
    TruncatedLength(name, 19);
    TruncatedLength(namespace, 19);
    GeneratedIs(namespace, name, CRON_JOB);
    GeneratedIs(namespace, shortName, CRON_JOB);
    GeneratedIs(shortNamespace, name, CRON_JOB);
    assert CronJobName(namespace, shortName) == CronJobName(namespace, name);
    assert CronJobName(shortNamespace, name) == CronJobName(namespace, name);
  }

  lemma CutParts(n1: string, n2: string)
    requires |n1| > 19 && |n2| > 19 && TruncateAndHash(n1, 19) == TruncateAndHash(n2, 19)
    ensures n1[..8] == n2[..8] && Adler32(n1[8..]) == Adler32(n2[8..])
  {
    var t1, t2 := TruncateAndHash(n1, 19), TruncateAndHash(n2, 19);
    assert t1[..8] == n1[..8] && t2[..8] == n2[..8];
    assert t1[9..] == Decimal(Adler32(n1[8..])) && t2[9..] == Decimal(Adler32(n2[8..]));
    DecimalInjective(Adler32(n1[8..]), Adler32(n2[8..]));
  }

  lemma GeneratedIs(namespace: string, name: string, pattern: Pattern)
    requires pattern.Length() == 14
    ensures GenerateJobName(namespace, name, pattern, false)
      == Fill(pattern, TruncateAndHash(namespace, 19), TruncateAndHash(name, 19), false)
  {
    var room := MAX_CRONJOB_CHARS - pattern.Length();
    assert room == 38 && room / 2 == 19 && NameRoom(room, false) == 19;
  }

  lemma SameNamePart(namespace: string, n1: string, n2: string, pattern: Pattern)
    requires pattern.Length() == 14
    ensures GenerateJobName(namespace, n1, pattern, false) == GenerateJobName(namespace, n2, pattern, false)
      <==> TruncateAndHash(n1, 19) == TruncateAndHash(n2, 19)
  {
    GeneratedIs(namespace, n1, pattern);
    GeneratedIs(namespace, n2, pattern);
    if GenerateJobName(namespace, n1, pattern, false) == GenerateJobName(namespace, n2, pattern, false) {
      SameFilling(pattern, TruncateAndHash(namespace, 19), TruncateAndHash(n1, 19), TruncateAndHash(n2, 19));
    }
  }

  lemma SameFilling(pattern: Pattern, namespace: string, a: string, b: string)
    requires Fill(pattern, namespace, a, false) == Fill(pattern, namespace, b, false)
    ensures a == b
  {
    var start := pattern.before + namespace + pattern.between;
    assert Fill(pattern, namespace, a, false) == start + (a + pattern.after);
    assert Fill(pattern, namespace, b, false) == start + (b + pattern.after);
    SameAfter(start, a + pattern.after, b + pattern.after);
    assert |a| == |b|;
    assert (a + pattern.after)[..|a|] == a && (b + pattern.after)[..|b|] == b;
  }

  lemma SameAfter(start: string, a: string, b: string)
    requires start + a == start + b
    ensures a == b
  {
    assert (start + a)[|start|..] == a && (start + b)[|start|..] == b;
  }

  lemma SameTruncation(n1: string, n2: string, length: nat)
    requires |n1| > length >= 11 && |n2| > length && n1[..length - 11] == n2[..length - 11]
    requires Adler32(n1[length - 11..]) == Adler32(n2[length - 11..])
    ensures TruncateAndHash(n1, length) == TruncateAndHash(n2, length)
  {
  }
}
