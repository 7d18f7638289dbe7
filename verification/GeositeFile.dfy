/** Geosite files and host lookups as text, and the packed form handed to the rule hook. */
module GeositeFile {
  import opened MachineTypes
  import opened Ascii
  import opened Splitting
  import opened Geosite

  // ----- Text -----

  /** `char::is_whitespace` */
  predicate IsSpace(c: char) {
    var n := c as int;
    || 0x09 <= n <= 0x0D || n == 0x20 || n == 0x85 || n == 0xA0 || n == 0x1680
    || 0x2000 <= n <= 0x200A || n == 0x2028 || n == 0x2029 || n == 0x202F || n == 0x205F || n == 0x3000
  }

  predicate IsDot(c: char) { c == '.' }

  function DropFront(s: string, p: char -> bool): string {
    if s != [] && p(s[0]) then DropFront(s[1..], p) else s
  }

  function DropBack(s: string, p: char -> bool): string {
    if s != [] && p(s[|s| - 1]) then DropBack(s[..|s| - 1], p) else s
  }

  function Trim(s: string): string { DropBack(DropFront(s, IsSpace), IsSpace) }

  function Normalize(raw: string): string {
    DropBack(LowerAll(DropFront(Trim(raw), IsDot)), IsDot)
  }

  predicate IsAlnum(c: char) { 'a' <= c <= 'z' || 'A' <= c <= 'Z' || '0' <= c <= '9' }

  predicate ValidTag(tag: string) {
    forall i :: 0 <= i < |tag| ==> IsAlnum(tag[i]) || tag[i] == '_' || tag[i] == '-' || tag[i] == '.'
  }

  predicate ValidLabel(l: string) {
    && l != [] && |l| <= 63 && l[0] != '-' && l[|l| - 1] != '-'
    && forall i :: 0 <= i < |l| ==> IsAlnum(l[i]) || l[i] == '-'
  }

  predicate ValidSuffix(s: string) {
    && |s| <= 253 && ':' !in s
    && var labels := Split(s, '.'); forall k :: 0 <= k < |labels| ==> ValidLabel(labels[k])
  }

  // ----- Files -----

  datatype Reason = NoColon | EmptyTag | BadTag | EmptyDomain | BadDomain

  datatype Line = Skip | Bad(reason: Reason) | Good(tag: string, suffix: string)

  /** The text before and after the first colon. */
  function SplitOnce(s: string): Option<(string, string)> {
    if s == [] then None
    else if s[0] == ':' then Some(([], s[1..]))
    else match SplitOnce(s[1..])
      case None => None
      case Some((a, b)) => Some(([s[0]] + a, b))
  }

  function StripReturn(line: string): string {
    if line != [] && line[|line| - 1] == '\r' then line[..|line| - 1] else line
  }

  /** `str::lines`: a carriage return goes with its newline, and nothing follows a final newline. */
  function LinesOf(body: string): seq<string> {
    var parts := Split(body, '\n');
    var n := |parts| - 1;
    seq(n, i requires 0 <= i < n => StripReturn(parts[i])) + (if parts[n] == [] then [] else [parts[n]])
  }

  predicate Printable(line: string) {
    '\n' !in line && (line != [] ==> line[|line| - 1] != '\r')
  }

  /** Lines written out one after the other, each ended by a newline, are read back. */
  lemma LinesRoundTrip(lines: seq<string>)
    requires forall l :: l in lines ==> Printable(l)
    ensures LinesOf(Join(lines + [[]], '\n')) == lines
  {
    var parts := lines + [[]];
    SplitJoin(parts, '\n');
    forall i | 0 <= i < |lines| ensures StripReturn(parts[i]) == lines[i] {
      assert Printable(lines[i]);
    }
  }

  function ReadLine(raw: string): Line {
    var line := Trim(raw);
    if line == [] || line[0] == '#' then Skip
    else match SplitOnce(line)
      case None => Bad(NoColon)
      case Some((left, right)) =>
        var tag, suffix := Trim(left), Normalize(Trim(right));
        if tag == [] then Bad(EmptyTag)
        else if !ValidTag(tag) then Bad(BadTag)
        else if suffix == [] then Bad(EmptyDomain)
        else if !ValidSuffix(suffix) then Bad(BadDomain)
        else Good(tag, suffix)
  }

  function Reversed(s: seq<string>): (r: seq<string>)
    ensures |r| == |s| && forall i :: 0 <= i < |s| ==> r[i] == s[|s| - 1 - i]
  {
    seq(|s|, i requires 0 <= i < |s| => s[|s| - 1 - i])
  }

  /** `rsplit('.')` */
  function PathOf(host: string): seq<string> {
    Reversed(Split(host, '.'))
  }

  datatype ParseError = InvalidLine(line: nat, reason: Reason)

  /** The entries of the first n lines, or the first bad line. */
  function EntriesOf(lines: seq<string>, n: nat): Result<seq<Entry>, ParseError>
    requires n <= |lines|
  {
    if n == 0 then Ok([])
    else
      var before :- EntriesOf(lines, n - 1);
      match ReadLine(lines[n - 1])
      case Skip => Ok(before)
      case Bad(reason) => Err(InvalidLine(n, reason))
      case Good(tag, suffix) => Ok(before + [Entry(PathOf(suffix), LowerAll(tag))])
  }

  // ----- What a line means -----

  predicate AllOf(s: string, p: char -> bool) {
    forall i :: 0 <= i < |s| ==> p(s[i])
  }

  /** The text neither begins nor ends with a character of this kind. */
  predicate Bounded(s: string, p: char -> bool) {
    s != [] ==> !p(s[0]) && !p(s[|s| - 1])
  }

  lemma {:induction false} DropFrontExactly(a: string, b: string, p: char -> bool)
    requires AllOf(a, p) && (b != [] ==> !p(b[0]))
    ensures DropFront(a + b, p) == b
  {
    if a == [] {
      assert a + b == b;
    } else {
      assert (a + b)[1..] == a[1..] + b;
      DropFrontExactly(a[1..], b, p);
    }
  }

  lemma {:induction false} DropBackExactly(a: string, b: string, p: char -> bool)
    requires AllOf(b, p) && (a != [] ==> !p(a[|a| - 1]))
    ensures DropBack(a + b, p) == a
  {
    if b == [] {
      assert a + b == a;
    } else {
      assert (a + b)[..|a + b| - 1] == a + b[..|b| - 1];
      DropBackExactly(a, b[..|b| - 1], p);
    }
  }

  lemma TrimExactly(before: string, core: string, after: string)
    requires AllOf(before, IsSpace) && AllOf(after, IsSpace) && Bounded(core, IsSpace)
    ensures Trim(before + core + after) == core
  {
    if core == [] {
      assert before + core + after == (before + after) + [];
      DropFrontExactly(before + after, [], IsSpace);
    } else {
      assert before + core + after == before + (core + after);
      DropFrontExactly(before, core + after, IsSpace);
      DropBackExactly(core, after, IsSpace);
    }
  }

  /** Space around a host, then dots around it, are dropped, and its letters become lower case. */
  lemma NormalizeMeans(before: string, dots: string, core: string, more: string, after: string)
    requires AllOf(before, IsSpace) && AllOf(after, IsSpace) && AllOf(dots, IsDot) && AllOf(more, IsDot)
    requires core != [] && Bounded(core, IsDot) && Bounded(core, IsSpace)
    ensures Normalize(before + (dots + core + more) + after) == LowerAll(core)
  {
    var mid := dots + core + more;
    assert Bounded(mid, IsSpace) by {
      assert mid[0] == if dots == [] then core[0] else '.';
      assert mid[|mid| - 1] == if more == [] then core[|core| - 1] else '.';
    }
    TrimExactly(before, mid, after);
    assert DropFront(mid, IsDot) == core + more by {
      assert mid == dots + (core + more);
      DropFrontExactly(dots, core + more, IsDot);
    }
    LowerDots(core, more);
    DropBackExactly(LowerAll(core), more, IsDot);
  }

  lemma LowerDots(core: string, dots: string)
    requires AllOf(dots, IsDot) && core != [] && Bounded(core, IsDot)
    ensures LowerAll(core + dots) == LowerAll(core) + dots && LowerAll(core)[|core| - 1] != '.'
  {
  }

  function LowerEach(parts: seq<string>): (r: seq<string>)
    ensures |r| == |parts| && forall k :: 0 <= k < |r| ==> r[k] == LowerAll(parts[k])
  {
    seq(|parts|, k requires 0 <= k < |parts| => LowerAll(parts[k]))
  }

  lemma LowerCons(c: char, s: string)
    ensures LowerAll([c] + s) == [Lower(c)] + LowerAll(s)
  {
  }

  lemma LowerEachCons(a: string, rest: seq<string>)
    ensures LowerEach([a] + rest) == [LowerAll(a)] + LowerEach(rest)
  {
  }

  lemma {:induction false} SplitLower(s: string)
    ensures Split(LowerAll(s), '.') == LowerEach(Split(s, '.'))
  {
    if s != [] {
      var rest := Split(s[1..], '.');
      var low := LowerAll(s);
      SplitLower(s[1..]);
      assert s == [s[0]] + s[1..];
      LowerCons(s[0], s[1..]);
      assert low[0] == Lower(s[0]) && low[1..] == LowerAll(s[1..]);
      if s[0] == '.' {
        LowerEachCons([], rest);
      } else {
        LowerEachCons([s[0]] + rest[0], rest[1..]);
        LowerCons(s[0], rest[0]);
        LowerEachCons(rest[0], rest[1..]);
        assert rest == [rest[0]] + rest[1..];
        assert LowerEach(rest)[1..] == LowerEach(rest[1..]);
        hide LowerAll, LowerEach;
      }
    } else {
      assert LowerAll([]) == [] && LowerEach([[]]) == [[]];
    }
  }

  lemma LowerValid(s: string)
    requires ValidSuffix(s)
    ensures ValidSuffix(LowerAll(s))
  {
    SplitLower(s);
    assert ':' !in LowerAll(s);
    var labels, lower := Split(s, '.'), Split(LowerAll(s), '.');
    forall k | 0 <= k < |lower| ensures ValidLabel(lower[k]) {
      assert ValidLabel(labels[k]) && lower[k] == LowerAll(labels[k]);
    }
  }

  lemma {:induction false} SplitOnceAt(a: string, b: string)
    requires ':' !in a
    ensures SplitOnce(a + ":" + b) == Some((a, b))
  {
    var s := a + ":" + b;
    if a == [] {
      assert s[1..] == b;
    } else {
      assert s[1..] == a[1..] + ":" + b;
      SplitOnceAt(a[1..], b);
      assert [a[0]] + a[1..] == a;
    }
  }

  /** Every character of a valid suffix is a letter, a digit, a hyphen or a dot, and a dot is never at an end. */
  lemma SuffixCharacters(s: string)
    requires ValidSuffix(s)
    ensures s != [] && Bounded(s, IsDot) && Bounded(s, IsSpace) && s[0] != '.' && s[|s| - 1] != '.'
    ensures forall i :: 0 <= i < |s| ==> IsAlnum(s[i]) || s[i] == '-' || s[i] == '.'
  {
    var labels := Split(s, '.');
    JoinSplit(s, '.');
    JoinCharacters(labels);
  }

  lemma {:induction false} JoinCharacters(labels: seq<string>)
    requires labels != [] && forall k :: 0 <= k < |labels| ==> ValidLabel(labels[k])
    ensures
      var s := Join(labels, '.');
      && s != [] && s[0] != '.' && s[|s| - 1] != '.'
      && forall i :: 0 <= i < |s| ==> IsAlnum(s[i]) || s[i] == '-' || s[i] == '.'
  {
    assert ValidLabel(labels[0]);
    if |labels| > 1 { JoinCharacters(labels[1..]); }
  }

  lemma TagCharacters(tag: string)
    requires tag != [] && ValidTag(tag)
    ensures Bounded(tag, IsSpace) && ':' !in tag && tag[0] != '#'
  {
  }

  /** Text that begins and ends with anything but space, and is not trimmed. */
  lemma TrimKeeps(s: string)
    requires Bounded(s, IsSpace)
    ensures Trim(s) == s
  {
    TrimExactly([], s, []);
    assert [] + s + [] == s;
  }

  lemma NormalizeLowers(s: string)
    requires s != [] && Bounded(s, IsDot) && Bounded(s, IsSpace)
    ensures Normalize(s) == LowerAll(s)
  {
    hide Normalize, LowerAll, Bounded;
    NormalizeMeans([], [], s, [], []);
    assert [] + ([] + s + []) + [] == s;
  }

  lemma ReadsAs(raw: string, tag: string, suffix: string)
    requires tag != [] && ValidTag(tag) && tag[0] != '#' && Trim(raw) == tag + ":" + suffix
    requires SplitOnce(tag + ":" + suffix) == Some((tag, suffix)) && Trim(tag) == tag && Trim(suffix) == suffix
    requires Normalize(suffix) != [] && ValidSuffix(Normalize(suffix))
    ensures ReadLine(raw) == Good(tag, Normalize(suffix))
  {
    hide ValidTag, ValidSuffix, Trim, Normalize, SplitOnce;
    assert (tag + ":" + suffix)[0] == tag[0];
  }

  /**
   * The line made of a valid tag, a colon and a valid suffix, in any mix of
   * upper and lower case and with space around it, files that tag under that
   * suffix in lower case.
   */
  lemma ValidLineIsFiled(before: string, tag: string, suffix: string, after: string)
    requires AllOf(before, IsSpace) && AllOf(after, IsSpace) && tag != [] && ValidTag(tag) && ValidSuffix(suffix)
    ensures ReadLine(before + (tag + ":" + suffix) + after) == Good(tag, LowerAll(suffix))
  {
    hide AllOf, IsSpace, IsDot, IsAlnum, ValidTag, ValidSuffix, Trim, Normalize, SplitOnce, ReadLine, LowerAll;
    SuffixCharacters(suffix);
    TagCharacters(tag);
    TrimExactly(before, tag + ":" + suffix, after);
    SplitOnceAt(tag, suffix);
    TrimKeeps(tag);
    TrimKeeps(suffix);
    NormalizeLowers(suffix);
    LowerValid(suffix);
    assert LowerAll(suffix) != [];
    ReadsAs(before + (tag + ":" + suffix) + after, tag, suffix);
  }

  lemma {:induction false} FirstErrorStays(lines: seq<string>, m: nat, n: nat)
    requires m <= n <= |lines| && EntriesOf(lines, m).Err?
    ensures EntriesOf(lines, n) == EntriesOf(lines, m)
  {
    hide ReadLine;
    if m < n { FirstErrorStays(lines, m, n - 1); }
  }

  lemma BuildNothing()
    ensures Build([]) == LEAF
  {
  }

  lemma BuildSnoc(entries: seq<Entry>, e: Entry)
    ensures Build(entries + [e]) == Insert(Build(entries), e.path, e.tag)
  {
    hide Insert;
    assert (entries + [e])[..|entries|] == entries;
  }

  method Parse(body: string) returns (r: Result<Node, ParseError>)
    ensures match EntriesOf(LinesOf(body), |LinesOf(body)|)
            case Ok(entries) => r == Ok(Build(entries))
            case Err(e) => r == Err(e)
  {
    hide ReadLine, Insert, LinesOf, Build, PathOf, LowerAll;
    assert Build([]) == LEAF by { BuildNothing(); }
    var lines := LinesOf(body);
    var root := LEAF;
    ghost var entries: seq<Entry> := [];
    for i := 0 to |lines|
      invariant EntriesOf(lines, i) == Ok(entries) && root == Build(entries)
    {
      match ReadLine(lines[i])
      case Skip =>
      case Bad(reason) =>
        FirstErrorStays(lines, i + 1, |lines|);
        return Err(InvalidLine(i + 1, reason));
      case Good(tag, suffix) =>
        ghost var e := Entry(PathOf(suffix), LowerAll(tag));
        BuildSnoc(entries, e);
        root := Insert(root, PathOf(suffix), LowerAll(tag));
        entries := entries + [e];
    }
    r := Ok(root);
  }

  // ----- Lookups -----

  function Lookup(root: Node, host: string): seq<string> {
    var h := Normalize(host);
    if h == [] then [] else Matches(root, PathOf(h))
  }

  /** Appends a tag to the packed bytes; tags are ASCII, so one character is one byte. */
  function PackNext(out: string, tag: string): string {
    (if out != [] then out + ['\0'] else out) + tag
  }

  function PackAll(tags: seq<string>): string {
    if tags == [] then [] else PackNext(PackAll(tags[..|tags| - 1]), tags[|tags| - 1])
  }

  method LookupPacked(root: Node, host: string) returns (out: string)
    ensures out == PackAll(Lookup(root, host))
  {
    var h := Normalize(host);
    out := [];
    if h == [] {
      return;
    }
    var tags := ForEachMatch(root, PathOf(h));
    for i := 0 to |tags|
      invariant out == PackAll(tags[..i])
    {
      assert tags[..i + 1][..i] == tags[..i];
      if out != [] {
        out := out + ['\0'];
      }
      out := out + tags[i];
    }
    assert tags[..|tags|] == tags;
  }

  /** The rule hook: split on NUL and keep the non-empty parts. */
  function HookTags(packed: string): seq<string> {
    NonEmpty(Split(packed, '\0'))
  }

  // ----- What a lookup means -----

  /** The host is the suffix, or ends in a dot and the suffix. */
  predicate UnderDomain(host: string, suffix: string) {
    || host == suffix
    || (|host| > |suffix| && host[|host| - |suffix|..] == suffix && host[|host| - |suffix| - 1] == '.')
  }

  lemma {:induction false} JoinConcat(a: seq<string>, b: seq<string>)
    requires a != [] && b != []
    ensures Join(a + b, '.') == Join(a, '.') + "." + Join(b, '.')
  {
    if |a| == 1 {
      assert (a + b)[1..] == b;
    } else {
      assert (a + b)[1..] == a[1..] + b;
      JoinConcat(a[1..], b);
    }
  }

  lemma ReversedPrefix(a: seq<string>, b: seq<string>)
    ensures (|a| <= |b| && Reversed(a) == Reversed(b)[..|a|]) <==> (|a| <= |b| && a == b[|b| - |a|..])
  {
    if |a| <= |b| && Reversed(a) == Reversed(b)[..|a|] {
      forall i | 0 <= i < |a| ensures a[i] == b[|b| - |a|..][i] {
        assert Reversed(a)[|a| - 1 - i] == Reversed(b)[..|a|][|a| - 1 - i];
      }
    }
  }

  /** The suffix's path leads the host's path exactly when the host lies under the suffix. */
  lemma PathPrefixIsDomain(host: string, suffix: string)
    ensures (|PathOf(suffix)| <= |PathOf(host)| && PathOf(suffix) == PathOf(host)[..|PathOf(suffix)|])
            <==> UnderDomain(host, suffix)
  {
    var ls, lh := Split(suffix, '.'), Split(host, '.');
    ReversedPrefix(ls, lh);
    JoinSplit(suffix, '.');
    JoinSplit(host, '.');
    if |ls| <= |lh| && ls == lh[|lh| - |ls|..] {
      var m := |lh| - |ls|;
      assert lh == lh[..m] + ls;
      if m > 0 { JoinConcat(lh[..m], ls); }
    }
    if UnderDomain(host, suffix) && host != suffix {
      var a := host[..|host| - |suffix| - 1];
      assert host == a + "." + suffix;
      SplitConcat(a, suffix, '.');
      assert lh[|lh| - |ls|..] == ls;
    }
  }

  lemma {:induction false} TagsOfMember(entries: seq<Entry>, path: seq<string>, tag: string)
    ensures tag in TagsOf(entries, path) <==> Entry(path, tag) in entries
  {
    if entries != [] {
      var n := |entries| - 1;
      TagsOfMember(entries[..n], path, tag);
      assert entries == entries[..n] + [entries[n]];
    }
  }

  /** Entries whose path is a non-empty leading part of the given one. */
  ghost predicate Hit(entries: seq<Entry>, path: seq<string>, k: nat, tag: string) {
    exists j :: k < j <= |path| && Entry(path[..j], tag) in entries
  }

  lemma HitStep(entries: seq<Entry>, path: seq<string>, k: nat, tag: string)
    requires k <= |path|
    ensures Hit(entries, path, k, tag)
            <==> k < |path| && (Entry(path[..k + 1], tag) in entries || Hit(entries, path, k + 1, tag))
  {
    if Hit(entries, path, k, tag) {
      var j :| k < j <= |path| && Entry(path[..j], tag) in entries;
      if j > k + 1 { assert Hit(entries, path, k + 1, tag); }
    }
  }

  lemma {:induction false} ScanMember(entries: seq<Entry>, path: seq<string>, k: nat, tag: string)
    requires k <= |path|
    ensures tag in ScanFrom(entries, path, k) <==> Hit(entries, path, k, tag)
    decreases |path| - k
  {
    hide TagsOf, Hit;
    HitStep(entries, path, k, tag);
    if k < |path| {
      ScanMember(entries, path, k + 1, tag);
      TagsOfMember(entries, path[..k + 1], tag);
    }
  }

  /** Some line of the file files this tag under this suffix. */
  ghost predicate Filed(lines: seq<string>, n: nat, tag: string, suffix: string)
    requires n <= |lines|
  {
    exists i, t :: 0 <= i < n && ReadLine(lines[i]) == Good(t, suffix) && LowerAll(t) == tag
  }

  lemma {:induction false} EntryMember(lines: seq<string>, n: nat, entries: seq<Entry>, path: seq<string>, tag: string)
    requires n <= |lines| && EntriesOf(lines, n) == Ok(entries)
    ensures Entry(path, tag) in entries <==> exists s :: PathOf(s) == path && Filed(lines, n, tag, s)
  {
    hide ReadLine, LowerAll, PathOf;
    if n > 0 {
      var before := EntriesOf(lines, n - 1).value;
      EntryMember(lines, n - 1, before, path, tag);
      if s :| PathOf(s) == path && Filed(lines, n, tag, s) {
        var i, t :| 0 <= i < n && ReadLine(lines[i]) == Good(t, s) && LowerAll(t) == tag;
        if i < n - 1 { assert Filed(lines, n - 1, tag, s); }
      }
      if s :| PathOf(s) == path && Filed(lines, n - 1, tag, s) {
        var i, t :| 0 <= i < n - 1 && ReadLine(lines[i]) == Good(t, s) && LowerAll(t) == tag;
        assert Filed(lines, n, tag, s);
      }
      match ReadLine(lines[n - 1])
      case Good(t, s) =>
        if Entry(path, tag) == Entry(PathOf(s), LowerAll(t)) { assert Filed(lines, n, tag, s); }
      case _ =>
    }
  }

  /**
   * A tag is found for a host exactly when some line of the file carries it for a
   * suffix the host lies under.
   */
  lemma LookupMeaning(lines: seq<string>, entries: seq<Entry>, host: string, tag: string)
    requires EntriesOf(lines, |lines|) == Ok(entries) && Normalize(host) != []
    ensures tag in Lookup(Build(entries), host)
            <==> exists s :: Filed(lines, |lines|, tag, s) && UnderDomain(Normalize(host), s)
  {
    hide Normalize, ReadLine, EntriesOf, Build, Matches, Filed, UnderDomain;
    var h := Normalize(host);
    var path := PathOf(h);
    TrieIsScan(entries, path);
    ScanMember(entries, path, 0, tag);
    if Hit(entries, path, 0, tag) {
      var j :| 0 < j <= |path| && Entry(path[..j], tag) in entries;
      EntryMember(lines, |lines|, entries, path[..j], tag);
      var s :| PathOf(s) == path[..j] && Filed(lines, |lines|, tag, s);
      PathPrefixIsDomain(h, s);
    }
    if s :| Filed(lines, |lines|, tag, s) && UnderDomain(h, s) {
      PathPrefixIsDomain(h, s);
      EntryMember(lines, |lines|, entries, PathOf(s), tag);
      assert Entry(path[..|PathOf(s)|], tag) in entries;
      assert Hit(entries, path, 0, tag);
    }
  }

  /** End to end: a line `tag:suffix` of a valid file makes the tag be found for every host under the suffix. */
  lemma FiledTagIsFound(lines: seq<string>, entries: seq<Entry>, i: nat, tag: string, suffix: string, host: string)
    requires EntriesOf(lines, |lines|) == Ok(entries) && i < |lines| && lines[i] == tag + ":" + suffix
    requires tag != [] && ValidTag(tag) && ValidSuffix(suffix)
    requires Normalize(host) != [] && UnderDomain(Normalize(host), LowerAll(suffix))
    ensures LowerAll(tag) in Lookup(Build(entries), host)
  {
    hide Normalize, ReadLine, EntriesOf, Build, Lookup, UnderDomain, ValidTag, ValidSuffix, LowerAll;
    ValidLineIsFiled([], tag, suffix, []);
    assert [] + (tag + ":" + suffix) + [] == lines[i];
    assert Filed(lines, |lines|, LowerAll(tag), LowerAll(suffix));
    LookupMeaning(lines, entries, host, LowerAll(tag));
  }

  // ----- Packing -----

  predicate Packable(tags: seq<string>) {
    forall k :: 0 <= k < |tags| ==> tags[k] != [] && '\0' !in tags[k]
  }

  lemma {:induction false} SplitPacked(tags: seq<string>)
    requires tags != [] && Packable(tags)
    ensures PackAll(tags) != [] && Split(PackAll(tags), '\0') == tags
  {
    hide Split;
    var n := |tags| - 1;
    SplitNoSeparator(tags[n], '\0');
    if n == 0 {
      assert PackAll(tags) == tags[0];
    } else {
      SplitPacked(tags[..n]);
      SplitConcat(PackAll(tags[..n]), tags[n], '\0');
      assert tags[..n] + [tags[n]] == tags;
    }
  }

  lemma {:induction false} NothingEmpty(tags: seq<string>)
    requires forall k :: 0 <= k < |tags| ==> tags[k] != []
    ensures NonEmpty(tags) == tags
  {
    if tags != [] { NothingEmpty(tags[1..]); }
  }

  /** The rule hook undoes the packing. */
  lemma PackRoundTrip(tags: seq<string>)
    requires Packable(tags)
    ensures HookTags(PackAll(tags)) == tags
  {
    hide Split, NonEmpty;
    if tags == [] {
      SplitNoSeparator([], '\0');
      OnlyEmpty();
    } else {
      SplitPacked(tags);
      NothingEmpty(tags);
    }
  }

  lemma OnlyEmpty()
    ensures NonEmpty<char>([[]]) == []
  {
  }

  lemma ValidTagPacks(tag: string)
    requires tag != [] && ValidTag(tag)
    ensures LowerAll(tag) != [] && '\0' !in LowerAll(tag)
  {
  }

  lemma {:induction false} FiledTagsPack(lines: seq<string>, n: nat, entries: seq<Entry>)
    requires n <= |lines| && EntriesOf(lines, n) == Ok(entries)
    ensures forall k :: 0 <= k < |entries| ==> entries[k].tag != [] && '\0' !in entries[k].tag
  {
    hide Trim, Normalize, SplitOnce, ValidTag, ValidSuffix, LowerAll, PathOf;
    if n > 0 {
      var before := EntriesOf(lines, n - 1).value;
      FiledTagsPack(lines, n - 1, before);
      match ReadLine(lines[n - 1])
      case Good(t, s) => ValidTagPacks(t);
      case _ =>
    }
  }

  /** For every valid file and host, what the rule hook sees is what `lookup` lists. */
  lemma HookSeesLookup(lines: seq<string>, entries: seq<Entry>, host: string)
    requires EntriesOf(lines, |lines|) == Ok(entries)
    ensures HookTags(PackAll(Lookup(Build(entries), host))) == Lookup(Build(entries), host)
  {
    hide EntriesOf, Normalize, Build, Matches, HookTags, PackAll;
    var tags := Lookup(Build(entries), host);
    FiledTagsPack(lines, |lines|, entries);
    if Normalize(host) != [] {
      var path := PathOf(Normalize(host));
      TrieIsScan(entries, path);
      forall k | 0 <= k < |tags| ensures tags[k] != [] && '\0' !in tags[k] {
        ScanMember(entries, path, 0, tags[k]);
        var j :| 0 < j <= |path| && Entry(path[..j], tags[k]) in entries;
        var i :| 0 <= i < |entries| && entries[i] == Entry(path[..j], tags[k]);
      }
    }
    PackRoundTrip(tags);
  }
}
