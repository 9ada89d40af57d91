/** Channel names for repositories: two agents never share one, and up to 50 bindings always
    get one. */
module ChannelNames {
  import opened Text
  import opened PyDict

  const MAX_CHANNEL_NAME_LEN := 80
  const MAX_NAME_ATTEMPTS := 50

  /** An absent `github_repo` or `slack_channel` is an empty string. */
  datatype Binding = Binding(agent: string, githubRepo: string, slackChannel: string)

  // -------------------------------------------------------------------------- names

  predicate ValidChar(c: char) {
    'a' <= c <= 'z' || '0' <= c <= '9' || c == '_' || c == '-'
  }

  /** The characters a channel name may have. */
  lemma ValidCharacters(c: char)
    ensures ValidChar(c) <==> c in "abcdefghijklmnopqrstuvwxyz0123456789-_"
  {
  }

  predicate ValidName(s: string) {
    forall i | 0 <= i < |s| :: ValidChar(s[i])
  }

  /** How far the run of invalid characters at `n` goes. */
  function InvalidFrom(s: string, n: nat): (k: nat)
    requires n <= |s|
    ensures n <= k <= |s| && (n < |s| && !ValidChar(s[n]) ==> k > n)
    decreases |s| - n
  {
    if n < |s| && !ValidChar(s[n]) then InvalidFrom(s, n + 1) else n
  }

  /** Every run of invalid characters becomes one dash. */
  function Sanitized(s: string): (r: string)
    ensures ValidName(r)
    decreases |s|
  {
    if s == "" then ""
    else if ValidChar(s[0]) then [s[0]] + Sanitized(s[1..])
    else "-" + Sanitized(s[InvalidFrom(s, 0)..])
  }

  /** `s.rstrip("-")` */
  function RStripDashes(s: string): (r: string)
    ensures |r| <= |s| && r == s[..|r|] && (r != "" ==> r[|r| - 1] != '-')
    ensures forall i | |r| <= i < |s| :: s[i] == '-'
  {
    if s != "" && s[|s| - 1] == '-' then RStripDashes(s[..|s| - 1]) else s
  }

  /** `s.strip("-")` */
  function StripDashes(s: string): (r: string)
    ensures ValidName(s) ==> ValidName(r)
    ensures r != "" ==> r[0] != '-' && r[|r| - 1] != '-'
    decreases |s|
  {
    if s != "" && s[0] == '-' then StripDashes(s[1..]) else RStripDashes(s)
  }

  function Take(s: string, n: nat): string {
    if |s| <= n then s else s[..n]
  }

  /** The index of the first slash, or the length. */
  function Slash(s: string): (i: nat)
    ensures i <= |s| && (i < |s| ==> s[i] == '/') && forall j | 0 <= j < i :: s[j] != '/'
  {
    if s == "" || s[0] == '/' then 0 else 1 + Slash(s[1..])
  }

  /** The part of `owner/repo` that names the channel. `lower` is `str.lower`. */
  function Base(repo: string, qualified: bool): string {
    var owner, name := repo[..Slash(repo)], if Slash(repo) < |repo| then repo[Slash(repo) + 1..] else "";
    if qualified && name != "" then owner + "-" + name
    else if name != "" then name
    else owner
  }

  function ChannelName(repo: string, prefix: string, qualified: bool, lower: string -> string): string {
    Take(prefix + StripDashes(Sanitized(lower(Base(repo, qualified)))), MAX_CHANNEL_NAME_LEN)
  }

  function Digit(d: nat): char
    requires d < 10
  {
    ('0' as int + d) as char
  }

  /** `f"-{n}"` */
  function Tag(n: nat): string
    requires n < 100
  {
    if n < 10 then ['-', Digit(n)] else ['-', Digit(n / 10), Digit(n % 10)]
  }

  /** Append `-n`, staying inside the length limit. */
  function WithSuffix(name: string, n: nat): string
    requires n < 100
  {
    RStripDashes(Take(name, MAX_CHANNEL_NAME_LEN - |Tag(n)|)) + Tag(n)
  }

  /** The candidates, in the order in which they are tried. */
  function Candidates(repo: string, prefix: string, lower: string -> string): seq<string> {
    var qualified := ChannelName(repo, prefix, true, lower);
    [ChannelName(repo, prefix, false, lower), qualified]
        + seq(MAX_NAME_ATTEMPTS, i requires 0 <= i < MAX_NAME_ATTEMPTS => WithSuffix(qualified, i + 2))
  }

  // -------------------------------------------------------------------- resolution

  function FirstFree(candidates: seq<string>, taken: map<string, string>): (r: Option<string>)
    ensures r.None? <==> forall c | c in candidates :: c in taken
    ensures r.Some? ==> r.value in candidates && r.value !in taken
  {
    if candidates == [] then None
    else if candidates[0] !in taken then Some(candidates[0])
    else FirstFree(candidates[1..], taken)
  }

  method UniqueName(repo: string, prefix: string, lower: string -> string, taken: map<string, string>)
      returns (r: Option<string>)
    ensures r == FirstFree(Candidates(repo, prefix, lower), taken)
  {
    var candidates := Candidates(repo, prefix, lower);
    for i := 0 to |candidates|
      invariant FirstFree(candidates, taken) == FirstFree(candidates[i..], taken)
    {
      if candidates[i] !in taken {
        return Some(candidates[i]);
      }
    }
    return None;
  }

  function NeedsName(bindings: seq<Binding>): seq<Binding> {
    if bindings == [] then []
    else
      var rest := NeedsName(bindings[1..]);
      if bindings[0].githubRepo != "" && bindings[0].slackChannel == "" then [bindings[0]] + rest else rest
  }

  /** `names` by agent, `seen` by name; a binding for which every candidate is taken fails. */
  datatype Names = Names(names: map<string, string>, seen: map<string, string>)

  function Assign(bindings: seq<Binding>, prefix: string, lower: string -> string, n: Names): Option<Names> {
    if bindings == [] then Some(n)
    else
      var name := FirstFree(Candidates(bindings[0].githubRepo, prefix, lower), n.seen);
      if name.None? then None
      else Assign(bindings[1..], prefix, lower,
                  Names(n.names[bindings[0].agent := name.value], n.seen[name.value := bindings[0].agent]))
  }

  function Resolved(bindings: seq<Binding>, prefix: string, lower: string -> string): Option<map<string, string>> {
    var r := Assign(NeedsName(bindings), prefix, lower, Names(map[], map[]));
    if r.Some? then Some(r.value.names) else None
  }

  /** Map each agent to its channel name; `None` is the error of a binding without one. */
  method ResolveNames(bindings: seq<Binding>, prefix: string, lower: string -> string)
      returns (r: Option<map<string, string>>)
    ensures r == Resolved(bindings, prefix, lower)
  {
    var repoBindings := NeedsName(bindings);
    var names: map<string, string>, seen: map<string, string> := map[], map[];
    for i := 0 to |repoBindings|
      invariant Assign(repoBindings, prefix, lower, Names(map[], map[]))
                == Assign(repoBindings[i..], prefix, lower, Names(names, seen))
    {
      var name := UniqueName(repoBindings[i].githubRepo, prefix, lower, seen);
      if name.None? {
        return None;
      }
      seen := seen[name.value := repoBindings[i].agent];
      names := names[repoBindings[i].agent := name.value];
    }
    return Some(names);
  }

  // ----------------------------------------------------------------------- theorems

  /** Candidates are tried in order. */
  lemma {:induction false} FirstComesFirst(candidates: seq<string>, taken: map<string, string>, i: nat)
    requires i < |candidates| && candidates[i] !in taken && forall j | 0 <= j < i :: candidates[j] in taken
    ensures FirstFree(candidates, taken) == Some(candidates[i])
  {
    if i > 0 {
      FirstComesFirst(candidates[1..], taken, i - 1);
    }
  }

  /** The bare name is preferred, then the qualified one. */
  lemma PlainNamesFirst(repo: string, prefix: string, lower: string -> string, taken: map<string, string>)
    ensures var bare, qualified := ChannelName(repo, prefix, false, lower), ChannelName(repo, prefix, true, lower);
      var name := FirstFree(Candidates(repo, prefix, lower), taken);
      && (bare !in taken ==> name == Some(bare))
      && (bare in taken && qualified !in taken ==> name == Some(qualified))
  {
    var cs := Candidates(repo, prefix, lower);
    assert cs[1..][0] == cs[1];
  }

  /** What a well-behaved `owner/name` is called: prefix and name, or prefix, owner and name. */
  lemma PlainNames(owner: string, name: string, prefix: string, lower: string -> string, qualified: bool)
    requires owner != "" && name != "" && (forall i | 0 <= i < |owner| :: owner[i] != '/')
    requires ValidName(owner) && ValidName(name) && owner[0] != '-' && name[0] != '-' && name[|name| - 1] != '-'
    requires var base := if qualified then owner + "-" + name else name;
      lower(base) == base && |prefix + base| <= MAX_CHANNEL_NAME_LEN
    ensures ChannelName(owner + "/" + name, prefix, qualified, lower)
         == prefix + if qualified then owner + "-" + name else name
  {
    var base := if qualified then owner + "-" + name else name;
    PlainParts(owner, name);
    SanitizedValid(base);
    assert base[0] != '-' && base[|base| - 1] == name[|name| - 1];
    Undashed(base);
  }

  lemma PlainParts(owner: string, name: string)
    requires name != "" && (forall i | 0 <= i < |owner| :: owner[i] != '/')
    ensures Base(owner + "/" + name, false) == name && Base(owner + "/" + name, true) == owner + "-" + name
  {
    var repo := owner + "/" + name;
    assert repo[|owner|] == '/';
    assert forall i | 0 <= i < |owner| :: repo[i] == owner[i];
    assert Slash(repo) == |owner|;
    assert repo[..|owner|] == owner && repo[|owner| + 1..] == name;
  }

  /** Without an owner or without a name, the other is all there is. */
  lemma OnePart(repo: string)
    ensures (forall i | 0 <= i < |repo| :: repo[i] != '/') ==> forall qualified :: Base(repo, qualified) == repo
    ensures repo != "" && repo[|repo| - 1] == '/' && (forall i | 0 <= i < |repo| - 1 :: repo[i] != '/') ==>
              forall qualified :: Base(repo, qualified) == repo[..|repo| - 1]
  {
    if forall i | 0 <= i < |repo| :: repo[i] != '/' {
      assert Slash(repo) == |repo| && repo[..|repo|] == repo;
    }
  }

  /** A run of invalid characters becomes one dash, and what is before and after it is treated
      on its own. */
  lemma {:induction false} RunsBecomeDashes(a: string, bad: string, b: string)
    requires ValidName(a) && bad != "" && (forall i | 0 <= i < |bad| :: !ValidChar(bad[i]))
    requires b == "" || ValidChar(b[0])
    ensures Sanitized(a + bad + b) == a + "-" + Sanitized(b)
    decreases |a|
  {
    var s := a + bad + b;
    if a == "" {
      InvalidRun(bad, b, 0);
      assert s == bad + b && s[|bad|..] == b;
    } else {
      RunsBecomeDashes(a[1..], bad, b);
      assert s[1..] == a[1..] + bad + b;
    }
  }

  lemma {:induction false} InvalidRun(bad: string, b: string, n: nat)
    requires n <= |bad| && (forall i | 0 <= i < |bad| :: !ValidChar(bad[i])) && (b == "" || ValidChar(b[0]))
    ensures InvalidFrom(bad + b, n) == |bad|
    decreases |bad| - n
  {
    if n < |bad| {
      InvalidRun(bad, b, n + 1);
    }
  }

  predicate AllDashes(s: string) {
    forall i | 0 <= i < |s| :: s[i] == '-'
  }

  /** Dashes go from both ends, and nothing else does. */
  lemma {:induction false} DashesStripped(pre: string, core: string, post: string)
    requires AllDashes(pre) && AllDashes(post) && (core != "" ==> core[0] != '-' && core[|core| - 1] != '-')
    ensures StripDashes(pre + core + post) == core
    decreases |pre| + |post|
  {
    var s := pre + core + post;
    if pre != "" {
      DashesStripped(pre[1..], core, post);
      assert s[1..] == pre[1..] + core + post;
    } else if core == "" && post != "" {
      DashesStripped("", "", post[1..]);
      assert s == post && s[1..] == "" + "" + post[1..];
    } else {
      RightStripped(core, post);
      assert s == core + post;
    }
  }

  lemma {:induction false} RightStripped(core: string, post: string)
    requires AllDashes(post) && (core != "" ==> core[|core| - 1] != '-')
    ensures RStripDashes(core + post) == core
    decreases |post|
  {
    if post == "" {
      assert core + post == core;
    } else {
      RightStripped(core, post[..|post| - 1]);
      assert (core + post)[..|core + post| - 1] == core + post[..|post| - 1];
    }
  }

  /** What a channel is called: the prefix, and then the lower-case name of the repository with
      its runs of invalid characters replaced, without the dashes around it; cut to length. */
  lemma NamedAfterRepository(repo: string, prefix: string, qualified: bool, lower: string -> string)
      returns (pre: string, slug: string, post: string)
    ensures Sanitized(lower(Base(repo, qualified))) == Around(pre, slug, post) && AllDashes(pre) && AllDashes(post)
    ensures slug != "" ==> slug[0] != '-' && slug[|slug| - 1] != '-'
    ensures var name, full := ChannelName(repo, prefix, qualified, lower), prefix + slug;
      name <= full && |name| == if |full| <= MAX_CHANNEL_NAME_LEN then |full| else MAX_CHANNEL_NAME_LEN
  {
    pre, slug, post := Stripped(Sanitized(lower(Base(repo, qualified))));
  }

  lemma {:induction false} LeftStripped(s: string) returns (k: nat)
    ensures k <= |s| && (forall i | 0 <= i < k :: s[i] == '-') && (k < |s| ==> s[k] != '-')
    ensures StripDashes(s) == RStripDashes(s[k..])
  {
    if s != "" && s[0] == '-' {
      k := LeftStripped(s[1..]);
      k := k + 1;
      assert s[1..][k - 1..] == s[k..];
    } else {
      k := 0;
      assert s[0..] == s;
    }
  }

  lemma Stripped(s: string) returns (pre: string, core: string, post: string)
    ensures Around(pre, core, post) == s && core == StripDashes(s) && AllDashes(pre) && AllDashes(post)
    ensures core != "" ==> core[0] != '-' && core[|core| - 1] != '-'
  {
    var k := LeftStripped(s);
    var tail := s[k..];
    core := RStripDashes(tail);
    pre, post := s[..k], tail[|core|..];
    assert core != "" ==> core[0] == s[k];
    ThreeParts(s, k, tail, |core|);
  }

  /** A suffix is a dash and the number in decimal. */
  lemma TagIsDecimal(n: nat)
    requires n < 100
    ensures var t := Tag(n);
      && t[0] == '-' && (forall i | 1 <= i < |t| :: '0' <= t[i] <= '9')
      && (if n < 10 then |t| == 2 && n == t[1] as int - '0' as int
          else |t| == 3 && n == 10 * (t[1] as int - '0' as int) + (t[2] as int - '0' as int))
  {
  }

  /** A suffixed name keeps as much of the name as fits before the suffix, less trailing dashes. */
  lemma SuffixKeeps(name: string, n: nat) returns (kept: nat)
    requires n < 100
    ensures var room := if |name| <= MAX_CHANNEL_NAME_LEN - |Tag(n)| then |name| else MAX_CHANNEL_NAME_LEN - |Tag(n)|;
      && kept <= room && WithSuffix(name, n) == name[..kept] + Tag(n)
      && (kept > 0 ==> name[kept - 1] != '-') && (forall i | kept <= i < room :: name[i] == '-')
  {
    kept := |RStripDashes(Take(name, MAX_CHANNEL_NAME_LEN - |Tag(n)|))|;
  }

  lemma Undashed(s: string)
    requires s != "" && s[0] != '-' && s[|s| - 1] != '-'
    ensures StripDashes(s) == s
  {
  }

  lemma SuffixFits(name: string, n: nat)
    requires n < 100
    ensures |WithSuffix(name, n)| <= MAX_CHANNEL_NAME_LEN
    ensures ValidName(name) ==> ValidName(WithSuffix(name, n))
  {
  }

  lemma CandidatesFit(repo: string, prefix: string, lower: string -> string)
    ensures forall c | c in Candidates(repo, prefix, lower) :: |c| <= MAX_CHANNEL_NAME_LEN
    ensures ValidName(prefix) ==> forall c | c in Candidates(repo, prefix, lower) :: ValidName(c)
  {
    var cs := Candidates(repo, prefix, lower);
    forall i | 0 <= i < |cs| ensures |cs[i]| <= MAX_CHANNEL_NAME_LEN && (ValidName(prefix) ==> ValidName(cs[i])) {
      if i >= 2 {
        SuffixFits(cs[1], i);
      }
    }
  }

  lemma DigitsDiffer(c: nat, d: nat)
    requires c < 10 && d < 10 && Digit(c) == Digit(d)
    ensures c == d && Digit(c) != '-'
  {
  }

  lemma TagsDiffer(n: nat, m: nat)
    requires n < 100 && m < 100 && Tag(n) == Tag(m)
    ensures n == m
  {
    DigitsDiffer(if n < 10 then n else n / 10, if m < 10 then m else m / 10);
    DigitsDiffer(n % 10, m % 10);
  }

  /** A tag starts with its only dash. */
  lemma TagLength(s: string, t: string, n: nat, m: nat)
    requires n < 100 && m < 100 && s + Tag(n) == t + Tag(m)
    ensures |Tag(n)| == |Tag(m)|
  {
    var r := s + Tag(n);
    assert r[|r| - |Tag(n)|] == '-' && r[|r| - |Tag(m)|] == '-';
    assert forall i | 0 < i < |Tag(n)| :: r[|r| - |Tag(n)| + i] == Tag(n)[i];
    assert forall i | 0 < i < |Tag(m)| :: r[|r| - |Tag(m)| + i] == Tag(m)[i];
  }

  /** A suffixed name determines its number, whatever was cut off before it. */
  lemma SuffixesDiffer(a: string, b: string, n: nat, m: nat)
    requires n < 100 && m < 100 && WithSuffix(a, n) == WithSuffix(b, m)
    ensures n == m
  {
    var s := RStripDashes(Take(a, MAX_CHANNEL_NAME_LEN - |Tag(n)|));
    var t := RStripDashes(Take(b, MAX_CHANNEL_NAME_LEN - |Tag(m)|));
    Split(s, Tag(n), t, Tag(m), n, m);
    TagsDiffer(n, m);
  }

  lemma Split(s: string, x: string, t: string, y: string, n: nat, m: nat)
    requires n < 100 && m < 100 && x == Tag(n) && y == Tag(m) && s + x == t + y
    ensures x == y
  {
    TagLength(s, t, n, m);
    assert x == (s + x)[|s|..] && y == (t + y)[|t|..];
  }

  /** The pigeonhole principle. */
  lemma {:induction false} DistinctFit<T>(xs: seq<T>, holes: set<T>)
    requires Distinct(xs) && forall x | x in xs :: x in holes
    ensures |xs| <= |holes|
  {
    if xs != [] {
      forall x | x in xs[1..] ensures x in holes - {xs[0]} {
        var i :| 0 <= i < |xs[1..]| && xs[1..][i] == x;
        assert xs[0] != xs[i + 1];
      }
      DistinctFit(xs[1..], holes - {xs[0]});
    }
  }

  lemma SuffixedAt(repo: string, prefix: string, lower: string -> string, i: nat)
    requires i < MAX_NAME_ATTEMPTS
    ensures var cs := Candidates(repo, prefix, lower);
      |cs| == MAX_NAME_ATTEMPTS + 2 && cs[2..][i] == WithSuffix(cs[1], i + 2)
  {
  }

  lemma SuffixedPair(repo: string, prefix: string, lower: string -> string, i: nat, j: nat)
    requires i < j < MAX_NAME_ATTEMPTS
    ensures Candidates(repo, prefix, lower)[2..][i] != Candidates(repo, prefix, lower)[2..][j]
  {
    var qualified := Candidates(repo, prefix, lower)[1];
    SuffixedAt(repo, prefix, lower, i);
    SuffixedAt(repo, prefix, lower, j);
    if WithSuffix(qualified, i + 2) == WithSuffix(qualified, j + 2) {
      SuffixesDiffer(qualified, qualified, i + 2, j + 2);
    }
  }

  lemma SuffixedDistinct(repo: string, prefix: string, lower: string -> string)
    ensures Distinct(Candidates(repo, prefix, lower)[2..])
  {
    var suffixed := Candidates(repo, prefix, lower)[2..];
    forall i, j | 0 <= i < j < |suffixed| ensures suffixed[i] != suffixed[j] {
      SuffixedPair(repo, prefix, lower, i, j);
    }
  }

  /** With fewer than 50 names taken, some candidate is free. */
  lemma SomeCandidateIsFree(repo: string, prefix: string, lower: string -> string, taken: map<string, string>)
    requires |taken| < MAX_NAME_ATTEMPTS
    ensures FirstFree(Candidates(repo, prefix, lower), taken).Some?
  {
    var cs := Candidates(repo, prefix, lower);
    assert |taken.Keys| == |taken|;
    if FirstFree(cs, taken).None? {
      SuffixedDistinct(repo, prefix, lower);
      DistinctFit(cs[2..], taken.Keys);
    }
  }

  lemma {:induction false} AssignSucceeds(bindings: seq<Binding>, prefix: string, lower: string -> string, n: Names)
    requires |n.seen| + |bindings| <= MAX_NAME_ATTEMPTS
    ensures Assign(bindings, prefix, lower, n).Some?
    decreases |bindings|
  {
    if bindings != [] {
      var repo := bindings[0].githubRepo;
      SomeCandidateIsFree(repo, prefix, lower, n.seen);
      var name := FirstFree(Candidates(repo, prefix, lower), n.seen).value;
      var seen := n.seen[name := bindings[0].agent];
      assert seen.Keys == n.seen.Keys + {name} && |seen.Keys| == |seen| && |n.seen.Keys| == |n.seen|;
      AssignSucceeds(bindings[1..], prefix, lower, Names(n.names[bindings[0].agent := name], seen));
    }
  }

  /** Naming cannot fail on at most 50 bindings, whatever the repositories. */
  lemma FiftyBindingsResolve(bindings: seq<Binding>, prefix: string, lower: string -> string)
    requires |NeedsName(bindings)| <= MAX_NAME_ATTEMPTS
    ensures Resolved(bindings, prefix, lower).Some?
  {
    AssignSucceeds(NeedsName(bindings), prefix, lower, Names(map[], map[]));
  }

  /** Every agent's name is taken, and by that agent; every name taken is a proper one. */
  predicate Consistent(n: Names, prefix: string) {
    && (forall a | a in n.names :: n.names[a] in n.seen && n.seen[n.names[a]] == a)
    && (forall s | s in n.seen :: |s| <= MAX_CHANNEL_NAME_LEN && (ValidName(prefix) ==> ValidName(s)))
  }

  lemma {:induction false} AssignConsistent(bindings: seq<Binding>, prefix: string, lower: string -> string, n: Names)
    requires Consistent(n, prefix) && Assign(bindings, prefix, lower, n).Some?
    ensures Consistent(Assign(bindings, prefix, lower, n).value, prefix)
    decreases |bindings|
  {
    if bindings != [] {
      var repo, agent := bindings[0].githubRepo, bindings[0].agent;
      var name := FirstFree(Candidates(repo, prefix, lower), n.seen).value;
      CandidatesFit(repo, prefix, lower);
      AssignConsistent(bindings[1..], prefix, lower, Names(n.names[agent := name], n.seen[name := agent]));
    }
  }

  lemma {:induction false} AssignNamesAll(bindings: seq<Binding>, prefix: string, lower: string -> string, n: Names)
    requires Assign(bindings, prefix, lower, n).Some?
    ensures Assign(bindings, prefix, lower, n).value.names.Keys == n.names.Keys + set b | b in bindings :: b.agent
    decreases |bindings|
  {
    if bindings != [] {
      var agent := bindings[0].agent;
      var name := FirstFree(Candidates(bindings[0].githubRepo, prefix, lower), n.seen).value;
      AssignNamesAll(bindings[1..], prefix, lower, Names(n.names[agent := name], n.seen[name := agent]));
      assert (set b | b in bindings :: b.agent) == {agent} + set b | b in bindings[1..] :: b.agent;
    }
  }

  /** `name` is a candidate for a binding of `agent`. */
  ghost predicate Given(agent: string, name: string, bindings: seq<Binding>, prefix: string, lower: string -> string) {
    exists b :: b in bindings && b.agent == agent && name in Candidates(b.githubRepo, prefix, lower)
  }

  ghost predicate AllGiven(names: map<string, string>, bindings: seq<Binding>, prefix: string,
                           lower: string -> string) {
    forall a | a in names :: Given(a, names[a], bindings, prefix, lower)
  }

  lemma {:induction false} AssignGives(bindings: seq<Binding>, prefix: string, lower: string -> string, n: Names,
                                       all: seq<Binding>)
    requires Assign(bindings, prefix, lower, n).Some? && AllGiven(n.names, all, prefix, lower)
    requires forall b | b in bindings :: b in all
    ensures AllGiven(Assign(bindings, prefix, lower, n).value.names, all, prefix, lower)
    decreases |bindings|
  {
    if bindings != [] {
      var agent := bindings[0].agent;
      var name := FirstFree(Candidates(bindings[0].githubRepo, prefix, lower), n.seen).value;
      assert bindings[0] in all;
      assert Given(agent, name, all, prefix, lower);
      AssignGives(bindings[1..], prefix, lower, Names(n.names[agent := name], n.seen[name := agent]), all);
    }
  }

  /** Who needs a name: a repository and no channel yet. */
  lemma {:induction false} WhoNeedsNames(bindings: seq<Binding>)
    ensures forall b :: b in NeedsName(bindings) <==> b in bindings && b.githubRepo != "" && b.slackChannel == ""
  {
    if bindings != [] {
      WhoNeedsNames(bindings[1..]);
      assert bindings == [bindings[0]] + bindings[1..];
    }
  }

  /** `name` is a candidate for a repository of `agent` that needs one. */
  ghost predicate OwnName(agent: string, name: string, bindings: seq<Binding>, prefix: string,
                          lower: string -> string) {
    exists b :: b in bindings && b.agent == agent && b.githubRepo != "" && b.slackChannel == ""
                && name in Candidates(b.githubRepo, prefix, lower)
  }

  /** For every list that resolves: exactly the agents with a repository and without a channel
      have a name, which is a candidate for their own repository; two agents never share one, and
      every name fits the platform. */
  lemma NamesAreUnique(bindings: seq<Binding>, prefix: string, lower: string -> string)
    requires Resolved(bindings, prefix, lower).Some?
    ensures var names := Resolved(bindings, prefix, lower).value;
      && (forall a :: a in names <==>
            exists b :: b in bindings && b.agent == a && b.githubRepo != "" && b.slackChannel == "")
      && (forall a | a in names :: OwnName(a, names[a], bindings, prefix, lower))
      && (forall a, b | a in names && b in names && names[a] == names[b] :: a == b)
      && (forall a | a in names :: |names[a]| <= MAX_CHANNEL_NAME_LEN)
      && (ValidName(prefix) ==> forall a | a in names :: ValidName(names[a]))
  {
    var needs := NeedsName(bindings);
    var names := Resolved(bindings, prefix, lower).value;
    AssignConsistent(needs, prefix, lower, Names(map[], map[]));
    AssignNamesAll(needs, prefix, lower, Names(map[], map[]));
    AssignGives(needs, prefix, lower, Names(map[], map[]), needs);
    WhoNeedsNames(bindings);
    forall a | a in names
      ensures OwnName(a, names[a], bindings, prefix, lower)
    {
      assert Given(a, names[a], needs, prefix, lower);
    }
  }

  function Bare(b: Binding, prefix: string, lower: string -> string): string {
    ChannelName(b.githubRepo, prefix, false, lower)
  }

  lemma {:induction false} AssignBare(bindings: seq<Binding>, prefix: string, lower: string -> string, n: Names)
    requires forall i, j | 0 <= i < j < |bindings| ::
               && bindings[i].agent != bindings[j].agent
               && Bare(bindings[i], prefix, lower) != Bare(bindings[j], prefix, lower)
    requires forall i | 0 <= i < |bindings| ::
               bindings[i].agent !in n.names && Bare(bindings[i], prefix, lower) !in n.seen
    ensures var r := Assign(bindings, prefix, lower, n);
      && r.Some? && (forall a | a in n.names :: a in r.value.names && r.value.names[a] == n.names[a])
      && (forall i | 0 <= i < |bindings| ::
            bindings[i].agent in r.value.names && r.value.names[bindings[i].agent] == Bare(bindings[i], prefix, lower))
    decreases |bindings|
  {
    if bindings != [] {
      var agent, name, rest := bindings[0].agent, Bare(bindings[0], prefix, lower), bindings[1..];
      PlainNamesFirst(bindings[0].githubRepo, prefix, lower, n.seen);
      assert forall i | 0 <= i < |rest| :: rest[i] == bindings[i + 1];
      var next := Names(n.names[agent := name], n.seen[name := agent]);
      AssignBare(rest, prefix, lower, next);
      forall i | 0 <= i < |bindings|
        ensures var r := Assign(bindings, prefix, lower, n).value;
          bindings[i].agent in r.names && r.names[bindings[i].agent] == Bare(bindings[i], prefix, lower)
      {
        if i > 0 {
          assert rest[i - 1] == bindings[i];
        } else {
          assert agent in next.names;
        }
      }
    }
  }

  /** Repositories whose bare names differ all get their bare names, however many there are. */
  lemma BareNamesSuffice(bindings: seq<Binding>, prefix: string, lower: string -> string)
    requires var needs := NeedsName(bindings);
      forall i, j | 0 <= i < j < |needs| ::
        needs[i].agent != needs[j].agent && Bare(needs[i], prefix, lower) != Bare(needs[j], prefix, lower)
    ensures var r := Resolved(bindings, prefix, lower);
      r.Some? && forall b | b in NeedsName(bindings) :: b.agent in r.value && r.value[b.agent] == Bare(b, prefix, lower)
  {
    var needs := NeedsName(bindings);
    AssignBare(needs, prefix, lower, Names(map[], map[]));
  }

  // -------------------------------------------------------------- the bound is tight

  lemma {:induction false} SanitizedValid(s: string)
    requires ValidName(s)
    ensures Sanitized(s) == s
  {
    if s != "" {
      SanitizedValid(s[1..]);
    }
  }

  lemma {:induction false} Elements<T>(xs: seq<T>) returns (elements: set<T>)
    ensures |elements| <= |xs| && forall x :: x in xs <==> x in elements
  {
    if xs == [] {
      elements := {};
    } else {
      elements := Elements(xs[1..]);
      elements := elements + {xs[0]};
    }
  }

  /** Bindings of one repository use up one candidate each. */
  lemma {:induction false} NamesNeeded(bindings: seq<Binding>, repo: string, prefix: string, lower: string -> string,
                                       n: Names, pool: set<string>)
    requires forall b | b in bindings :: b.githubRepo == repo
    requires forall c :: c in Candidates(repo, prefix, lower) <==> c in pool
    requires n.seen.Keys <= pool
    ensures Assign(bindings, prefix, lower, n).Some? <==> |n.seen| + |bindings| <= |pool|
    decreases |bindings|
  {
    assert |n.seen.Keys| == |n.seen|;
    Subset(n.seen.Keys, pool);
    if bindings != [] {
      var name := FirstFree(Candidates(repo, prefix, lower), n.seen);
      if name.None? {
        assert n.seen.Keys == pool;
      } else {
        var seen := n.seen[name.value := bindings[0].agent];
        assert seen.Keys == n.seen.Keys + {name.value} && |seen.Keys| == |seen|;
        NamesNeeded(bindings[1..], repo, prefix, lower, Names(n.names[bindings[0].agent := name.value], seen), pool);
      }
    }
  }

  lemma {:induction false} Subset<T>(a: set<T>, b: set<T>)
    requires a <= b
    ensures |a| <= |b|
  {
    assert |b| == |a| + |b - a| by {
      assert b == a + (b - a);
    }
  }

  /** Bindings of one repository can all be named iff it has that many different candidates;
      and it has 50 to 52 of them. */
  lemma OneRepositoryResolves(bindings: seq<Binding>, repo: string, prefix: string, lower: string -> string)
      returns (pool: set<string>)
    requires forall b | b in NeedsName(bindings) :: b.githubRepo == repo
    ensures forall c :: c in pool <==> c in Candidates(repo, prefix, lower)
    ensures Resolved(bindings, prefix, lower).Some? <==> |NeedsName(bindings)| <= |pool|
    ensures MAX_NAME_ATTEMPTS <= |pool| <= MAX_NAME_ATTEMPTS + 2
  {
    var cs := Candidates(repo, prefix, lower);
    pool := Elements(cs);
    SuffixedDistinct(repo, prefix, lower);
    forall c | c in cs[2..] ensures c in pool {
      var i :| 0 <= i < |cs[2..]| && cs[2..][i] == c;
      assert cs[i + 2] == c;
    }
    DistinctFit(cs[2..], pool);
    NamesNeeded(NeedsName(bindings), repo, prefix, lower, Names(map[], map[]), pool);
  }

  /** "aaaa-7aaaa-aaaa-7aaaa-...": its first 72 characters end in "-7". */
  function Char(i: nat): char {
    if i % 11 == 4 || i % 11 == 10 then '-' else if i % 11 == 5 then '7' else 'a'
  }

  function Pattern(n: nat): (s: string)
    ensures |s| == n && forall i | 0 <= i < n :: s[i] == Char(i)
  {
    seq(n, i requires 0 <= i < n => Char(i))
  }

  const OWNER: string := "aaaa-7aaaa"
  const NAME: string := Pattern(76)
  const PREFIX: string := "trionyx-"

  lemma OwnerAndName()
    ensures OWNER + "-" + NAME == Pattern(87)
  {
    forall i: nat | i < 87 ensures (OWNER + "-" + NAME)[i] == Char(i) {
      if i > 10 {
        assert (OWNER + "-" + NAME)[i] == NAME[i - 11];
        assert (i - 11) % 11 == i % 11;
      }
    }
  }

  /** Both names are cut to the same 80 characters. */
  lemma CutName(n: nat, lower: string -> string)
    requires 72 <= n && n % 11 == 10 && lower(Pattern(n)) == Pattern(n)
    ensures Take(PREFIX + StripDashes(Sanitized(lower(Pattern(n)))), MAX_CHANNEL_NAME_LEN) == PREFIX + Pattern(72)
  {
    var base: string := Pattern(n);
    SanitizedValid(base);
    assert base[0] == 'a' && base[n - 1] == 'a';
    Undashed(base);
    assert base[..72] == Pattern(72);
  }

  lemma OwnVariant(name: string, n: nat)
    requires n < 10 && |name| == MAX_CHANNEL_NAME_LEN && name[77] != '-' && name[78..] == Tag(n)
    ensures WithSuffix(name, n) == name
  {
    assert RStripDashes(name[..78]) == name[..78];
    assert name[..78] + name[78..] == name;
  }

  /** The seventh variant of that name is the name. */
  lemma CutVariant()
    ensures WithSuffix(PREFIX + Pattern(72), 7) == PREFIX + Pattern(72)
  {
    var name := PREFIX + Pattern(72);
    assert name[77] == Char(69) && name[78] == Char(70) && name[79] == Char(71);
    assert name[78..] == Tag(7);
    OwnVariant(name, 7);
  }

  lemma CutNames(lower: string -> string)
    requires lower(NAME) == NAME && lower(OWNER + "-" + NAME) == OWNER + "-" + NAME
    ensures forall qualified :: ChannelName(OWNER + "/" + NAME, PREFIX, qualified, lower) == PREFIX + Pattern(72)
  {
    PlainParts(OWNER, NAME);
    OwnerAndName();
    CutName(76, lower);
    CutName(87, lower);
  }

  lemma FiftyCandidates(repo: string, prefix: string, lower: string -> string)
    requires var name := ChannelName(repo, prefix, true, lower);
      ChannelName(repo, prefix, false, lower) == name == WithSuffix(name, 7)
    ensures forall c | c in Candidates(repo, prefix, lower) :: c in Candidates(repo, prefix, lower)[2..]
  {
    var cs := Candidates(repo, prefix, lower);
    SuffixedAt(repo, prefix, lower, 5);
    assert cs[0] == cs[1] == cs[2..][5];
    forall i | 0 <= i < |cs| ensures cs[i] in cs[2..] {
      if i >= 2 {
        assert cs[i] == cs[2..][i - 2];
      }
    }
  }

  /** So a repository of one owner, with the default prefix, has 50 candidates, and fifty-one
      bindings of it cannot all be named. */
  lemma FiftyOneBindingsCanFail(bindings: seq<Binding>, lower: string -> string)
    requires lower(NAME) == NAME && lower(OWNER + "-" + NAME) == OWNER + "-" + NAME
    requires forall b | b in NeedsName(bindings) :: b.githubRepo == OWNER + "/" + NAME
    ensures Resolved(bindings, PREFIX, lower).Some? <==> |NeedsName(bindings)| <= MAX_NAME_ATTEMPTS
  {
    var repo := OWNER + "/" + NAME;
    CutNames(lower);
    CutVariant();
    FiftyCandidates(repo, PREFIX, lower);
    var variants := Elements(Candidates(repo, PREFIX, lower)[2..]);
    var pool := OneRepositoryResolves(bindings, repo, PREFIX, lower);
    Subset(pool, variants);
  }
}
