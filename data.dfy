/**
 * The value types of the tool: a version `Tag`, a Dockerfile, and a
 * `Parent` (one `FROM image:tag suffix` declaration), with the equality,
 * ordering and display formats the source defines on them.
 */
module Data {
  import opened Text
  import opened Wrappers
  import opened Pattern

  const U32_MAX: int := 0xFFFF_FFFF

  type U32 = x: int | 0 <= x <= U32_MAX

  /** The four version numbers of a tag, most significant first. */
  type Nrs = (U32, U32, U32, U32)

  /** A tag: its literal text and the numbers parsed from it. */
  datatype Tag = Tag(name: string, nrs: Nrs)

  datatype Ordering = Less | Equal | Greater

  function Flip(o: Ordering): Ordering {
    match o
    case Less => Greater
    case Equal => Equal
    case Greater => Less
  }

  /** `u32::cmp` */
  function CmpU32(x: U32, y: U32): (o: Ordering)
    ensures o == Less <==> x < y
    ensures o == Equal <==> x == y
  {
    if x < y then Less else if x == y then Equal else Greater
  }

  /** `Ordering::then`: the first non-equal comparison decides. */
  function Then(o1: Ordering, o2: Ordering): Ordering {
    if o1 == Equal then o2 else o1
  }

  /** Strict lexicographic order on the numbers, most significant first. */
  predicate NrsLess(x: Nrs, y: Nrs) {
    || x.0 < y.0
    || (x.0 == y.0 && x.1 < y.1)
    || (x.0 == y.0 && x.1 == y.1 && x.2 < y.2)
    || (x.0 == y.0 && x.1 == y.1 && x.2 == y.2 && x.3 < y.3)
  }

  /** `PartialEq for Tag`: the name is irrelevant, only the numbers count. */
  predicate TagEq(a: Tag, b: Tag) {
    a.nrs == b.nrs
  }

  /** `Ord for Tag`: the tuple comparison of the numbers. */
  function Cmp(a: Tag, b: Tag): (o: Ordering)
    ensures o == Equal <==> TagEq(a, b)
    ensures o == Less <==> NrsLess(a.nrs, b.nrs)
    ensures o == Greater <==> NrsLess(b.nrs, a.nrs)
  {
    Then(CmpU32(a.nrs.0, b.nrs.0),
      Then(CmpU32(a.nrs.1, b.nrs.1),
        Then(CmpU32(a.nrs.2, b.nrs.2), CmpU32(a.nrs.3, b.nrs.3))))
  }

  /** `PartialOrd for Tag`: the tuple's `partial_cmp`, which never fails on `u32`s. */
  function PartialCmp(a: Tag, b: Tag): (r: Option<Ordering>)
    ensures r == Some(Cmp(a, b))
  {
    var parts := [CmpU32(a.nrs.0, b.nrs.0), CmpU32(a.nrs.1, b.nrs.1),
                  CmpU32(a.nrs.2, b.nrs.2), CmpU32(a.nrs.3, b.nrs.3)];
    if parts[0] != Equal then Some(parts[0])
    else if parts[1] != Equal then Some(parts[1])
    else if parts[2] != Equal then Some(parts[2])
    else Some(parts[3])
  }

  /** `a >= b` through `PartialOrd::ge`. */
  predicate Ge(a: Tag, b: Tag) {
    PartialCmp(a, b) == Some(Greater) || PartialCmp(a, b) == Some(Equal)
  }

  /** `a <= b` */
  predicate Le(a: Tag, b: Tag) {
    Ge(b, a)
  }

  /** Comparison is antisymmetric: swapping the arguments reverses the result. */
  lemma CmpSwap(a: Tag, b: Tag)
    ensures Cmp(b, a) == Flip(Cmp(a, b))
  {
  }

  /** `<=` on tags is a total preorder whose equivalence is `TagEq`. */
  lemma LeTotalPreorder(a: Tag, b: Tag, c: Tag)
    ensures Le(a, a)
    ensures Le(a, b) || Le(b, a)
    ensures Le(a, b) && Le(b, a) <==> TagEq(a, b)
    ensures Le(a, b) && Le(b, c) ==> Le(a, c)
  {
  }

  /** `Display for Tag`: the four numbers joined by dots; the name is not shown. */
  function Display(t: Tag): (r: string)
    ensures forall i :: 0 <= i < |r| ==> r[i] == '.' || IsDigit(r[i])
  {
    NatToDecimal(t.nrs.0) + ("." + (NatToDecimal(t.nrs.1) + ("." +
    (NatToDecimal(t.nrs.2) + ("." + NatToDecimal(t.nrs.3))))))
  }

  lemma DisplayExample()
    ensures Display(Tag("1.3.2-alpha", (1, 3, 2, 0))) == "1.3.2.0"
  {
  }

  datatype Dockerfile = Dockerfile(path: string, content: string)

  /**
   * One `FROM` declaration: the Dockerfile it belongs to, the image name,
   * the pattern synthesized from its tag, the tag, and the rest of the line.
   */
  datatype Parent = Parent(dockerfile: Dockerfile, name: string, tagPattern: Regex, tag: Tag, suffix: string)

  /** `PartialEq for Parent`: only the name and the tag take part. */
  predicate ParentEq(a: Parent, b: Parent) {
    a.name == b.name && TagEq(a.tag, b.tag)
  }

  /** What identifies a parent in a set: its name and its tag's numbers. */
  type ParentKey = (string, Nrs)

  function Key(p: Parent): ParentKey {
    (p.name, p.tag.nrs)
  }

  /** Two parents are equal exactly when their keys are. */
  lemma ParentEqIsKeyEq(a: Parent, b: Parent)
    ensures ParentEq(a, b) <==> Key(a) == Key(b)
  {
  }

  /** Parent equality ignores the Dockerfile, the pattern and the suffix. */
  lemma ParentEqIgnoresPayload(a: Parent, b: Parent, f: Dockerfile, re: Regex, suffix: string)
    ensures ParentEq(a, b) <==> ParentEq(a.(dockerfile := f, tagPattern := re, suffix := suffix), b)
  {
  }

  /** `Display for Parent`: `name:tag@pattern`, then ` suffix` if there is one. */
  function ParentDisplay(p: Parent): string {
    ParentText(p.name, Display(p.tag), AsStr(p.tagPattern), p.suffix)
  }

  function ParentText(name: string, tag: string, pattern: string, suffix: string): string {
    var tail := if suffix == [] then "" else " " + suffix;
    name + (":" + (tag + ("@" + (pattern + tail))))
  }

  /** Where the name, the tag's display text, the pattern and the suffix stand in the text. */
  lemma ParentDisplayLayout(p: Parent)
    ensures var r := ParentDisplay(p);
            |r| > |p.name| && r[..|p.name| + 1] == p.name + ":"
    ensures var r, at := ParentDisplay(p), |p.name| + 1 + |Display(p.tag)|;
            at < |r| && r[|p.name| + 1..at] == Display(p.tag) && r[at] == '@'
    ensures var r, re, at := ParentDisplay(p), AsStr(p.tagPattern), |p.name| + 1 + |Display(p.tag)|;
            at + 1 + |re| <= |r| && r[at + 1..at + 1 + |re|] == re
    ensures var r := ParentDisplay(p);
            p.suffix == [] <==> |p.name| + 1 + |Display(p.tag)| + 1 + |AsStr(p.tagPattern)| == |r|
    ensures var r := ParentDisplay(p);
            p.suffix == [] ==> r[|r| - 1] == '$'
    ensures var r := ParentDisplay(p);
            p.suffix != [] ==> |r| > |p.suffix| && r[|r| - |p.suffix| - 1..] == " " + p.suffix
    ensures p.suffix != [] ==>
              |ParentDisplay(p)| == |p.name| + 1 + |Display(p.tag)| + 1 + |AsStr(p.tagPattern)| + 1 + |p.suffix|
  {
    var re := AsStr(p.tagPattern);
    assert re[|re| - 1] == '$';
    ParentTextLayout(p.name, Display(p.tag), re, p.suffix);
  }

  lemma ParentTextLayout(name: string, tag: string, pattern: string, suffix: string)
    ensures var r := ParentText(name, tag, pattern, suffix);
            |r| > |name| && r[..|name| + 1] == name + ":"
    ensures var r, at := ParentText(name, tag, pattern, suffix), |name| + 1 + |tag|;
            at < |r| && r[|name| + 1..at] == tag && r[at] == '@'
    ensures var r, at := ParentText(name, tag, pattern, suffix), |name| + 1 + |tag|;
            at + 1 + |pattern| <= |r| && r[at + 1..at + 1 + |pattern|] == pattern
    ensures var r := ParentText(name, tag, pattern, suffix);
            suffix == [] <==> |name| + 1 + |tag| + 1 + |pattern| == |r|
    ensures var r := ParentText(name, tag, pattern, suffix);
            suffix == [] && pattern != [] ==> r[|r| - 1] == pattern[|pattern| - 1]
    ensures var r := ParentText(name, tag, pattern, suffix);
            suffix != [] ==> |r| > |suffix| && r[|r| - |suffix| - 1..] == " " + suffix
    ensures suffix != [] ==> |ParentText(name, tag, pattern, suffix)| == |name| + 1 + |tag| + 1 + |pattern| + 1 + |suffix|
  {
    var tail := if suffix == [] then "" else " " + suffix;
    DisplayPieces(name, tag, pattern, tail);
  }

  /** Where the pieces of `a:b@c` followed by `e` stand in the text. */
  lemma DisplayPieces(a: string, b: string, c: string, e: string)
    ensures var r := a + (":" + (b + ("@" + (c + e))));
            |r| > |a| && r[..|a| + 1] == a + ":"
    ensures var r, at := a + (":" + (b + ("@" + (c + e)))), |a| + 1 + |b|;
            && at + 1 + |c| <= |r|
            && r[|a| + 1..at] == b && r[at] == '@' && r[at + 1..at + 1 + |c|] == c
            && (e == [] <==> at + 1 + |c| == |r|)
    ensures var r := a + (":" + (b + ("@" + (c + e))));
            |c| > 0 && e == [] ==> r[|r| - 1] == c[|c| - 1]
    ensures var r := a + (":" + (b + ("@" + (c + e))));
            |r| >= |e| && r[|r| - |e|..] == e
  {
  }
}
