/** Names that carry meaning: a draining container's deadline, a worker's identity, an
    image's project and commit. */
module Naming {
  import opened Wrappers
  import opened Text

  const DRAINING := ".draining."

  function StripSlashes(s: string): string {
    if s != [] && s[0] == '/' then StripSlashes(s[1..]) else s
  }

  /** Where the digits at the end of a text begin. */
  function DigitsFrom(s: string): (k: nat)
    ensures k <= |s| && AllDigits(s[k..])
    ensures 0 < k ==> !IsDigit(s[k - 1])
  {
    if s == [] || !IsDigit(s[|s| - 1]) then |s|
    else
      assert s[DigitsFrom(s[..|s| - 1])..] == s[..|s| - 1][DigitsFrom(s[..|s| - 1])..] + [s[|s| - 1]];
      DigitsFrom(s[..|s| - 1])
  }

  function DrainingName(name: string, deadline: nat): string {
    name + DRAINING + Decimal(deadline)
  }

  /** The second a draining container is killed at, or None if it is not draining. A name
      matches when at least one character, then `.draining.`, come before its last digits. */
  function DrainingDeadline(name: string): Option<nat> {
    var s := StripSlashes(name);
    var k := DigitsFrom(s);
    if k < |s| && 11 <= k && s[k - 10..k] == DRAINING then Some(ToNat(s[k..])) else None
  }

  lemma {:induction false} DigitsFromAfter(prefix: string, digits: string)
    requires prefix == [] || !IsDigit(prefix[|prefix| - 1])
    requires AllDigits(digits)
    ensures DigitsFrom(prefix + digits) == |prefix|
  {
    var s := prefix + digits;
    if digits == [] {
      assert s == prefix;
    } else {
      assert s[..|s| - 1] == prefix + digits[..|digits| - 1];
      DigitsFromAfter(prefix, digits[..|digits| - 1]);
    }
  }

  lemma {:induction false} StripSlashesOfAppend(name: string, rest: string)
    requires rest != [] && rest[0] != '/'
    ensures StripSlashes(name + rest) == StripSlashes(name) + rest
  {
    if name == [] {
      assert name + rest == rest;
    } else {
      assert (name + rest)[0] == name[0];
      if name[0] == '/' {
        assert (name + rest)[1..] == name[1..] + rest;
        StripSlashesOfAppend(name[1..], rest);
      }
    }
  }

  /** The deadline read back from a draining name is the one written, for every name that is
      more than slashes. */
  lemma DeadlineReadsBack(name: string, deadline: nat)
    ensures DrainingDeadline(DrainingName(name, deadline)) ==
            if StripSlashes(name) != [] then Some(deadline) else None
  {
    DecimalReadsBack(deadline);
    var rest := DRAINING + Decimal(deadline);
    assert DrainingName(name, deadline) == name + rest;
    StripSlashesOfAppend(name, rest);
    var prefix := StripSlashes(name) + DRAINING;
    var s := StripSlashes(name) + rest;
    assert s == prefix + Decimal(deadline) && prefix[|prefix| - 1] == '.';
    DigitsFromAfter(prefix, Decimal(deadline));
    assert s[|prefix|..] == Decimal(deadline) && s[|prefix| - 10..|prefix|] == DRAINING;
  }

  /** This much of a name after its leading slashes, then the marker, then these digits. */
  predicate Reads(s: string, name: string, digits: string) {
    && StripSlashes(s) == name + ".draining." + digits && name != [] && digits != []
    && forall i | 0 <= i < |digits| :: '0' <= digits[i] <= '9'
  }

  lemma DeadlineIs(s: string, name: string, digits: string)
    requires Reads(s, name, digits)
    ensures DrainingDeadline(s) == Some(ToNat(digits))
  {
    var t, prefix := StripSlashes(s), name + DRAINING;
    assert t == prefix + digits && prefix[|prefix| - 1] == '.';
    DigitsFromAfter(prefix, digits);
    assert t[|prefix|..] == digits && t[|prefix| - 10..|prefix|] == DRAINING;
  }

  /** A container is draining exactly when its name reads that way, whoever named it. */
  lemma DrainingIff(s: string)
    ensures DrainingDeadline(s).Some? <==> exists name: string, digits: string :: Reads(s, name, digits)
  {
    if DrainingDeadline(s).Some? {
      var t := StripSlashes(s);
      var k := DigitsFrom(t);
      assert t == t[..k - 10] + t[k - 10..k] + t[k..];
      assert Reads(s, t[..k - 10], t[k..]);
    } else if name: string, digits: string :| Reads(s, name, digits) {
      DeadlineIs(s, name, digits);
    }
  }

  /** Two containers get the same draining name only from the same name and deadline. */
  lemma DrainingNameInjective(name: string, deadline: nat, name': string, deadline': nat)
    requires DrainingName(name, deadline) == DrainingName(name', deadline')
    ensures name == name' && deadline == deadline'
  {
    DecimalReadsBack(deadline);
    DecimalReadsBack(deadline');
    SplitAtDigits(name + DRAINING, deadline, name' + DRAINING, deadline');
    assert name == (name + DRAINING)[..|name|] && name' == (name' + DRAINING)[..|name'|];
  }

  lemma SplitAtDigits(prefix: string, n: nat, prefix': string, n': nat)
    requires prefix + Decimal(n) == prefix' + Decimal(n')
    requires prefix != [] && !IsDigit(prefix[|prefix| - 1]) && prefix' != [] && !IsDigit(prefix'[|prefix'| - 1])
    ensures prefix == prefix' && n == n'
  {
    DecimalReadsBack(n);
    DecimalReadsBack(n');
    DigitsFromAfter(prefix, Decimal(n));
    DigitsFromAfter(prefix', Decimal(n'));
    assert prefix == (prefix + Decimal(n))[..|prefix|] && prefix' == (prefix' + Decimal(n'))[..|prefix'|];
    assert Decimal(n) == (prefix + Decimal(n))[|prefix|..] && Decimal(n') == (prefix' + Decimal(n'))[|prefix'|..];
  }

  function WorkerName(slug: string, process: string, replica: nat): string {
    "deploypro-" + slug + "-" + process + "-" + Decimal(replica)
  }

  /** Within a project every replica of every process has a name of its own; between projects
      two share one exactly when slug and process, joined by a hyphen, read the same. */
  lemma WorkerNamesCollideIff(slug: string, process: string, replica: nat, slug': string, process': string, replica': nat)
    ensures WorkerName(slug, process, replica) == WorkerName(slug', process', replica') <==>
            slug + "-" + process == slug' + "-" + process' && replica == replica'
    ensures slug == slug' && WorkerName(slug, process, replica) == WorkerName(slug', process', replica') ==>
            process == process' && replica == replica'
  {
    var a := "deploypro-" + (slug + "-" + process) + "-";
    var b := "deploypro-" + (slug' + "-" + process') + "-";
    assert WorkerName(slug, process, replica) == a + Decimal(replica);
    assert WorkerName(slug', process', replica') == b + Decimal(replica');
    assert a[|a| - 1] == '-' && b[|b| - 1] == '-';
    if WorkerName(slug, process, replica) == WorkerName(slug', process', replica') {
      SplitAtDigits(a, replica, b, replica');
      assert slug + "-" + process == a[10..|a| - 1] && slug' + "-" + process' == b[10..|b| - 1];
      if slug == slug' {
        assert process == (slug + "-" + process)[|slug| + 1..];
        assert process' == (slug' + "-" + process')[|slug| + 1..];
      }
    }
  }

  /** Such a clash exists: process `api-mailer` of `blog`, and `mailer` of `blog-api`. */
  lemma TwoProjectsOneName()
    ensures WorkerName("blog", "api-mailer", 0) == WorkerName("blog-api", "mailer", 0)
  {
    assert "blog" + "-" + "api-mailer" == "blog-api" + "-" + "mailer";
    WorkerNamesCollideIff("blog", "api-mailer", 0, "blog-api", "mailer", 0);
  }

  /** A worker's own name is never a draining one. */
  lemma WorkerNameIsNotDraining(slug: string, process: string, replica: nat)
    ensures DrainingDeadline(WorkerName(slug, process, replica)).None?
    ensures StripSlashes(WorkerName(slug, process, replica)) != []
  {
    var prefix := "deploypro-" + slug + "-" + process + "-";
    var name := WorkerName(slug, process, replica);
    DecimalReadsBack(replica);
    assert name == prefix + Decimal(replica) && prefix[|prefix| - 1] == '-' && name[0] == 'd';
    DigitsFromAfter(prefix, Decimal(replica));
    assert StripSlashes(name) == name;
    assert name[|prefix| - 10..|prefix|][9] == '-' && DRAINING[9] == '.';
  }

  function ShortSha(sha: string): string {
    if |sha| <= 12 then sha else sha[..12]
  }

  function ImageTag(slug: string, sha: string): string {
    "deploypro/" + slug + ":" + ShortSha(sha)
  }

  // The names as they look

  lemma NamesLookLikeThis()
    ensures DrainingName("deploypro-blog-mailer-0", 7) == "deploypro-blog-mailer-0.draining.7"
    ensures WorkerName("blog", "mailer", 0) == "deploypro-blog-mailer-0"
  {
    assert Decimal(7) == "7" && Decimal(0) == "0";
  }

  /** A tag ends in the first twelve characters of the commit. */
  lemma TagsAreShort(slug: string, sha: string)
    ensures var tag := ImageTag(slug, sha);
            |ShortSha(sha)| == (if |sha| <= 12 then |sha| else 12) && ShortSha(sha) <= sha
            && tag[|tag| - |ShortSha(sha)|..] == ShortSha(sha)
  {
  }
}
