/** Python string operations the modelled components share. */
module Text {

  datatype Option<+T> = None | Some(value: T)

  /** `str.isspace` on one character. */
  predicate IsSpace(c: char) {
    || '\t' <= c <= '\r'
    || '\U{1c}' <= c <= ' '
    || c == '\U{85}'
    || c == '\U{a0}'
    || c == '\U{1680}'
    || '\U{2000}' <= c <= '\U{200a}'
    || c == '\U{2028}'
    || c == '\U{2029}'
    || c == '\U{202f}'
    || c == '\U{205f}'
    || c == '\U{3000}'
  }

  /** The white space among the first 128 characters. */
  lemma AsciiSpaces(c: char)
    requires c < '\U{80}'
    ensures IsSpace(c) <==> c in "\t\n\U{b}\U{c}\r\U{1c}\U{1d}\U{1e}\U{1f} "
  {
  }

  predicate AllSpace(s: string) {
    forall i | 0 <= i < |s| :: IsSpace(s[i])
  }

  /** The length of `s[..n]` without its trailing white space. */
  function KeptLength(s: string, n: nat): (k: nat)
    requires n <= |s|
    ensures k <= n && (forall i | k <= i < n :: IsSpace(s[i])) && (k > 0 ==> !IsSpace(s[k - 1]))
  {
    if n == 0 || !IsSpace(s[n - 1]) then n else KeptLength(s, n - 1)
  }

  /** How much of `s[n..]` follows leading white space. */
  function SkippedLength(s: string, n: nat): (k: nat)
    requires n <= |s|
    ensures n <= k <= |s| && (forall i | n <= i < k :: IsSpace(s[i])) && (k < |s| ==> !IsSpace(s[k]))
    decreases |s| - n
  {
    if n == |s| || !IsSpace(s[n]) then n else SkippedLength(s, n + 1)
  }

  /** `s.rstrip()` */
  function RStrip(s: string): string {
    s[..KeptLength(s, |s|)]
  }

  /** `s.lstrip()` */
  function LStrip(s: string): string {
    s[SkippedLength(s, 0)..]
  }

  /** `s.strip()` */
  function Strip(s: string): string {
    RStrip(LStrip(s))
  }

  /** It neither starts nor ends with white space. */
  predicate Bare(s: string) {
    s != "" ==> !IsSpace(s[0]) && !IsSpace(s[|s| - 1])
  }

  /** `core` is `s` without the white space around it. */
  ghost predicate Core(core: string, s: string) {
    Bare(core) && exists pre, post :: AllSpace(pre) && AllSpace(post) && Around(pre, core, post) == s
  }

  function Around(pre: string, core: string, post: string): string {
    pre + core + post
  }

  lemma StripIsCore(s: string)
    ensures Core(Strip(s), s)
  {
    var n := SkippedLength(s, 0);
    var tail := s[n..];
    var k := KeptLength(tail, |tail|);
    StrippedIsBare(tail);
    assert AllSpace(tail[k..]) && AllSpace(s[..n]);
    ThreeParts(s, n, tail, k);
  }

  lemma ThreeParts(s: string, n: nat, tail: string, k: nat)
    requires n <= |s| && tail == s[n..] && k <= |tail|
    ensures Around(s[..n], tail[..k], tail[k..]) == s
  {
    assert s[..n] + tail == s;
    assert tail[..k] + tail[k..] == tail;
    assert s[..n] + tail[..k] + tail[k..] == s[..n] + (tail[..k] + tail[k..]);
  }

  lemma StrippedIsBare(tail: string)
    requires tail != "" ==> !IsSpace(tail[0])
    ensures Bare(RStrip(tail))
  {
  }

  /** Nothing else is. */
  lemma CoreUnique(a: string, b: string, s: string)
    requires Core(a, s) && Core(b, s)
    ensures a == b
  {
    var p, q :| AllSpace(p) && AllSpace(q) && Around(p, a, q) == s;
    var u, v :| AllSpace(u) && AllSpace(v) && Around(u, b, v) == s;
    if a == "" || b == "" {
      NothingBut(p, a, q, u, b, v);
      NothingBut(u, b, v, p, a, q);
    } else {
      assert s[|p|] == a[0] && s[|u|] == b[0];
      assert s[|p| + |a| - 1] == a[|a| - 1] && s[|u| + |b| - 1] == b[|b| - 1];
      assert |p| == |u| && |q| == |v|;
      assert a == s[|p|..|p| + |a|] && b == s[|u|..|u| + |b|];
    }
  }

  lemma NothingBut(p: string, a: string, q: string, u: string, b: string, v: string)
    requires AllSpace(p) && AllSpace(q) && AllSpace(u) && AllSpace(v) && Bare(a)
    requires Around(p, a, q) == Around(u, b, v)
    ensures b == "" ==> a == ""
  {
    var s := Around(p, a, q);
    assert b == "" ==> s == u + v && AllSpace(s);
    assert a != "" ==> s[|p|] == a[0] && !IsSpace(s[|p|]);
  }

  /** `sep.join(parts)` */
  function Join(sep: string, parts: seq<string>): string {
    if parts == [] then ""
    else if |parts| == 1 then parts[0]
    else parts[0] + sep + Join(sep, parts[1..])
  }

  /** All of `parts`, one after the other. */
  function Concat<T>(parts: seq<seq<T>>): seq<T> {
    if parts == [] then [] else parts[0] + Concat(parts[1..])
  }

  lemma {:induction false} ConcatSnoc<T>(parts: seq<seq<T>>, last: seq<T>)
    ensures Concat(parts + [last]) == Concat(parts) + last
  {
    if parts == [] {
    } else {
      assert (parts + [last])[1..] == parts[1..] + [last];
      ConcatSnoc(parts[1..], last);
    }
  }

  /** `parts` with `sep` before each but the first. */
  function Spaced(sep: string, parts: seq<string>): (pieces: seq<string>)
    ensures |pieces| == |parts|
    ensures forall i | 0 <= i < |parts| :: pieces[i] == if i == 0 then parts[0] else sep + parts[i]
  {
    seq(|parts|, i requires 0 <= i < |parts| => if i == 0 then parts[0] else sep + parts[i])
  }

  lemma {:induction false} JoinIsSpaced(sep: string, parts: seq<string>)
    ensures Join(sep, parts) == Concat(Spaced(sep, parts))
  {
    if |parts| == 1 {
      assert Spaced(sep, parts) == [parts[0]];
      assert [parts[0]][1..] == [];
    } else if |parts| > 1 {
      var rest := Spaced(sep, parts[1..]);
      JoinIsSpaced(sep, parts[1..]);
      assert Spaced(sep, parts) == [parts[0]] + ([sep + rest[0]] + rest[1..]);
      assert ([parts[0]] + ([sep + rest[0]] + rest[1..]))[1..] == [sep + rest[0]] + rest[1..];
      LongerFirst(sep, rest);
    }
  }

  lemma LongerFirst(sep: string, pieces: seq<string>)
    requires pieces != []
    ensures Concat([sep + pieces[0]] + pieces[1..]) == sep + Concat(pieces)
  {
    assert ([sep + pieces[0]] + pieces[1..])[1..] == pieces[1..];
    assert sep + pieces[0] + Concat(pieces[1..]) == sep + (pieces[0] + Concat(pieces[1..]));
  }
}
