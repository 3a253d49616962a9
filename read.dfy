/**
 * Scanning Dockerfiles for parents (`src/dvb/read.rs`): split the content
 * into lines, keep the lines starting with `FROM `, recognise
 * `^FROM\s+(\S+):(\S+)\s*(.*)$` on them, and collect one parent per
 * recognised line into a set keyed by (image name, tag numbers).
 */
module Read {
  import opened Text
  import opened Wrappers
  import opened Pattern
  import opened Data
  import opened Convert

  // ---------------------------------------------------------------- str::lines

  /** Index of the first `\n` in `s`, or `|s|` if there is none. */
  function NewlineIndex(s: string): (k: nat)
    ensures k <= |s| && '\n' !in s[..k]
    ensures k < |s| ==> s[k] == '\n'
  {
    if s == [] || s[0] == '\n' then 0
    else
      var k := 1 + NewlineIndex(s[1..]);
      assert s[..k] == [s[0]] + s[1..][..k - 1];
      k
  }

  /** The pieces of `s` between newlines; a final newline does not start another piece. */
  function RawLines(s: string): (ls: seq<string>)
    ensures forall i :: 0 <= i < |ls| ==> '\n' !in ls[i]
    decreases |s|
  {
    if s == [] then []
    else
      var k := NewlineIndex(s);
      if k == |s| then [s] else [s[..k]] + RawLines(s[k + 1..])
  }

  /** Every piece followed by a newline. */
  function Unlines(ls: seq<string>): string {
    if ls == [] then "" else ls[0] + "\n" + Unlines(ls[1..])
  }

  /**
   * The pieces, each terminated by a newline again, give back the content,
   * with a newline added at the end when it had none.
   */
  lemma {:induction false} RawLinesCover(s: string)
    ensures Unlines(RawLines(s)) == Terminated(s)
    decreases |s|
  {
    if s != [] {
      var k := NewlineIndex(s);
      if k == |s| {
        assert s[..k] == s;
        assert RawLines(s) == [s];
        UnlinesCons(s, []);
      } else {
        var rest := s[k + 1..];
        RawLinesCover(rest);
        assert RawLines(s) == [s[..k]] + RawLines(rest);
        UnlinesCons(s[..k], RawLines(rest));
        TerminatedSplit(s, k);
      }
    }
  }

  /** `s` with a newline added unless it is empty or already ends in one. */
  function Terminated(s: string): string {
    if s == [] || s[|s| - 1] == '\n' then s else s + "\n"
  }

  lemma TerminatedSplit(s: string, k: nat)
    requires k < |s| && s[k] == '\n'
    ensures Terminated(s) == s[..k] + "\n" + Terminated(s[k + 1..])
  {
    var head, rest := s[..k], s[k + 1..];
    assert s == (head + "\n") + rest;
    if rest != [] {
      assert s[|s| - 1] == rest[|rest| - 1];
      if rest[|rest| - 1] != '\n' {
        AppendAssoc(head + "\n", rest, "\n");
      }
    }
  }

  lemma UnlinesCons(l: string, ls: seq<string>)
    ensures Unlines([l] + ls) == l + "\n" + Unlines(ls)
  {
    assert ([l] + ls)[1..] == ls;
  }

  /** One trailing carriage return removed. */
  function StripCr(l: string): string {
    if |l| > 0 && l[|l| - 1] == '\r' then l[..|l| - 1] else l
  }

  /** `str::lines`: split on `\n`, and drop a `\r` that ends a line. */
  function Lines(s: string): (ls: seq<string>)
    ensures |ls| == |RawLines(s)|
    ensures forall i :: 0 <= i < |ls| ==> ls[i] == StripCr(RawLines(s)[i]) && '\n' !in ls[i]
  {
    var raw := RawLines(s);
    seq(|raw|, i requires 0 <= i < |raw| => StripCr(raw[i]))
  }

  /** `line.starts_with("FROM ")` */
  predicate IsFromLine(line: string) {
    |line| >= 5 && line[..5] == "FROM "
  }

  // ------------------------------------------------------------------- FROM_RE

  /** The last `:` at a position in `(lo, j]`. */
  function LastColon(s: string, lo: nat, j: nat): (r: Option<nat>)
    requires j < |s|
    ensures r.Some? ==> lo < r.value <= j && s[r.value] == ':'
    ensures r.Some? ==> forall c :: r.value < c <= j ==> s[c] != ':'
    ensures r.None? ==> forall c :: lo < c <= j ==> s[c] != ':'
    decreases j
  {
    if j <= lo then None
    else if s[j] == ':' then Some(j)
    else LastColon(s, lo, j - 1)
  }

  /**
   * Where the regex splits a line: groups 1, 2 and 3 are `[p1, p2)`,
   * `[p2 + 1, p4)` and `[p5, |line|)`; `p2` is the colon.
   */
  datatype Split = Split(p1: nat, p2: nat, p4: nat, p5: nat)

  /**
   * Every way `^FROM\s+(\S+):(\S+)\s*(.*)$` can match the line, with no
   * preference among them (`.` does not match a newline).
   */
  ghost predicate IsSplit(line: string, q: Split) {
    && |line| >= 4 && line[..4] == "FROM"
    && 4 < q.p1 < q.p2 && q.p2 + 1 < q.p4 <= q.p5 <= |line|
    && AllWsIn(line, 4, q.p1)
    && NoWsIn(line, q.p1, q.p2)
    && line[q.p2] == ':'
    && NoWsIn(line, q.p2 + 1, q.p4)
    && AllWsIn(line, q.p4, q.p5)
    && NoNewlineIn(line, q.p5, |line|)
  }

  /**
   * The preference of a backtracking engine with greedy quantifiers: a
   * longer group 1 first, then a longer group 2, then more whitespace.
   */
  predicate SplitLe(q: Split, r: Split) {
    || q.p2 < r.p2
    || (q.p2 == r.p2 && q.p4 < r.p4)
    || (q.p2 == r.p2 && q.p4 == r.p4 && q.p5 <= r.p5)
  }

  /**
   * The hand-written recogniser: skip the whitespace after `FROM`, take the
   * next token, split it at its last colon that has a character after it,
   * skip the whitespace after the token, and take the rest as the suffix.
   */
  function FromSplit(line: string): Option<Split> {
    if !(|line| >= 4 && line[..4] == "FROM") then None
    else
      var p1 := SkipWs(line, 4);
      if p1 == 4 then None
      else
        var te := SkipNonWs(line, p1);
        if te < p1 + 3 then None
        else match LastColon(line, p1, te - 2)
          case None => None
          case Some(p2) =>
            var p5 := SkipWs(line, te);
            if NoNewlineIn(line, p5, |line|) then Some(Split(p1, p2, te, p5)) else None
  }

  /**
   * The recogniser finds a match exactly when the regex has one, and the
   * split it returns is the one the regex engine prefers among all matches.
   */
  lemma FromSplitIsLeftmostFirst(line: string)
    ensures FromSplit(line).Some? ==> IsSplit(line, FromSplit(line).value)
    ensures forall q :: IsSplit(line, q) ==> FromSplit(line).Some? && SplitLe(q, FromSplit(line).value)
  {
    forall q | IsSplit(line, q)
      ensures FromSplit(line).Some? && SplitLe(q, FromSplit(line).value)
    {
      SplitIsBelowGreedy(line, q);
    }
  }

  lemma SplitIsBelowGreedy(line: string, q: Split)
    requires IsSplit(line, q)
    ensures FromSplit(line).Some? && SplitLe(q, FromSplit(line).value)
  {
    var p1 := SkipWs(line, 4);
    assert !IsWs(line[q.p1]);
    assert p1 == q.p1;
    var te := SkipNonWs(line, p1);
    assert q.p4 <= te by {
      assert NoWsIn(line, p1, q.p4) by {
        forall k | p1 <= k < q.p4 ensures !IsWs(line[k]) {
          if k < q.p2 { } else if k == q.p2 { assert line[k] == ':'; } else { }
        }
      }
    }
    var lc := LastColon(line, p1, te - 2);
    assert lc.Some? && q.p2 <= lc.value;
    var p5 := SkipWs(line, te);
    assert q.p5 <= p5 by {
      if q.p4 < te {
        assert !IsWs(line[q.p4]);
        assert q.p5 == q.p4;
      }
    }
    assert NoNewlineIn(line, p5, |line|);
  }

  /** The three capture groups of `FROM_RE`. */
  datatype Declaration = Declaration(image: string, tag: string, suffix: string)

  /** `FROM_RE.captures(line)` */
  function FromCaptures(line: string): (r: Option<Declaration>)
    ensures r.Some? <==> FromSplit(line).Some?
    ensures r.Some? ==> |r.value.image| > 0 && |r.value.tag| > 0
    ensures r.Some? ==> forall c :: 0 <= c < |r.value.tag| - 1 ==> r.value.tag[c] != ':'
    ensures r.Some? ==> r.value.suffix == [] || !IsWs(r.value.suffix[0])
    ensures r.Some? ==> |r.value.suffix| <= |line| && r.value.suffix == line[|line| - |r.value.suffix|..]
  {
    match FromSplit(line)
    case None => None
    case Some(q) =>
      Some(Declaration(line[q.p1..q.p2], line[q.p2 + 1..q.p4], line[q.p5..]))
  }

  /** `line` is `FROM`, whitespace `w1`, the image, `:`, the tag, whitespace `w2` and the suffix. */
  predicate Rebuilds(line: string, d: Declaration, w1: string, w2: string) {
    && |w1| > 0 && AllWsIn(w1, 0, |w1|) && AllWsIn(w2, 0, |w2|)
    && |d.image| > 0 && NoWsIn(d.image, 0, |d.image|)
    && |d.tag| > 0 && NoWsIn(d.tag, 0, |d.tag|)
    && (|w2| > 0 || d.suffix == [])
    && line == "FROM" + (w1 + (d.image + (":" + (d.tag + (w2 + d.suffix)))))
  }

  lemma SliceAt(s: string, i: nat, j: nat)
    requires i <= j <= |s|
    ensures s[i..] == s[i..j] + s[j..]
  {
  }

  /** The three captures, with the whitespace between them, give back the whole line. */
  lemma FromCapturesRebuild(line: string)
    requires FromCaptures(line).Some?
    ensures exists w1, w2 :: Rebuilds(line, FromCaptures(line).value, w1, w2)
  {
    FromSplitIsLeftmostFirst(line);
    var q := FromSplit(line).value;
    var d := Declaration(line[q.p1..q.p2], line[q.p2 + 1..q.p4], line[q.p5..]);
    assert FromCaptures(line).value == d;
    assert q.p4 == SkipNonWs(line, q.p1) && q.p5 == SkipWs(line, q.p4);
    assert q.p4 < q.p5 || q.p5 == |line| by {
      if q.p4 < |line| { assert IsWs(line[q.p4]); }
    }
    SliceAllWs(line, 4, q.p1);
    SliceAllWs(line, q.p4, q.p5);
    SliceNoWs(line, q.p1, q.p2);
    SliceNoWs(line, q.p2 + 1, q.p4);
    SplitRebuilds(line, q);
    assert Rebuilds(line, d, line[4..q.p1], line[q.p4..q.p5]);
  }

  lemma SplitRebuilds(line: string, q: Split)
    requires 4 < q.p1 < q.p2 && q.p2 + 1 < q.p4 <= q.p5 <= |line|
    requires line[..4] == "FROM" && line[q.p2] == ':'
    requires AllWsIn(line[4..q.p1], 0, q.p1 - 4) && AllWsIn(line[q.p4..q.p5], 0, q.p5 - q.p4)
    requires NoWsIn(line[q.p1..q.p2], 0, q.p2 - q.p1) && NoWsIn(line[q.p2 + 1..q.p4], 0, q.p4 - q.p2 - 1)
    requires q.p4 < q.p5 || q.p5 == |line|
    ensures Rebuilds(line, Declaration(line[q.p1..q.p2], line[q.p2 + 1..q.p4], line[q.p5..]),
                     line[4..q.p1], line[q.p4..q.p5])
  {
    var w1, w2 := line[4..q.p1], line[q.p4..q.p5];
    var d := Declaration(line[q.p1..q.p2], line[q.p2 + 1..q.p4], line[q.p5..]);
    assert |w2| > 0 || d.suffix == [] by {
      if q.p4 == q.p5 { assert |d.suffix| == |line| - q.p5 == 0; }
    }
    Reassemble(line, q.p1, q.p2, q.p4, q.p5);
    assert line == "FROM" + (w1 + (d.image + (":" + (d.tag + (w2 + d.suffix)))));
  }

  lemma SliceNoWs(s: string, a: nat, b: nat)
    requires NoWsIn(s, a, b)
    ensures NoWsIn(s[a..b], 0, b - a)
  {
    var w := s[a..b];
    forall k | 0 <= k < |w| ensures !IsWs(w[k]) { assert w[k] == s[a + k]; }
  }

  lemma SliceAllWs(s: string, a: nat, b: nat)
    requires AllWsIn(s, a, b)
    ensures AllWsIn(s[a..b], 0, b - a)
  {
    var w := s[a..b];
    forall k | 0 <= k < |w| ensures IsWs(w[k]) { assert w[k] == s[a + k]; }
  }

  /** A line cut at four positions, with a colon at the second, is the concatenation of its pieces. */
  lemma Reassemble(line: string, p1: nat, p2: nat, p4: nat, p5: nat)
    requires 4 <= p1 <= p2 < p4 <= p5 <= |line| && line[..4] == "FROM" && line[p2] == ':'
    ensures line == "FROM" + (line[4..p1] + (line[p1..p2] + (":" + (line[p2 + 1..p4] + (line[p4..p5] + line[p5..])))))
  {
    SliceAt(line, p4, p5);
    var r3 := line[p2 + 1..p4] + line[p4..];
    SliceAt(line, p2 + 1, p4);
    var r2 := ":" + r3;
    SliceAt(line, p2, p2 + 1);
    assert line[p2..p2 + 1] == ":";
    assert line[p2..] == r2;
    SliceAt(line, p1, p2);
    SliceAt(line, 4, p1);
    SliceAt(line, 0, 4);
    assert line == line[0..];
  }

  // ------------------------------------------------------ parents of the lines

  /** The tag of a recognised line can be turned into a pattern and parsed without a panic. */
  predicate DeclarationOk(line: string) {
    match FromCaptures(line)
    case None => true
    case Some(d) => IsDockerTag(d.tag) && DigitRunsFitU32(d.tag)
  }

  /**
   * The parent of a recognised declaration in `file`: its pattern is the
   * tag's pattern and its tag is the tag parsed against that pattern.
   */
  function ParentFrom(file: Dockerfile, d: Declaration): (p: Parent)
    requires IsDockerTag(d.tag) && DigitRunsFitU32(d.tag)
    ensures p.dockerfile == file && p.name == d.image && p.suffix == d.suffix
    ensures p.tagPattern == TagToRe(d.tag).value && p.tag.name == d.tag
    ensures NrsSeq(p.tag) == FirstFour(DigitRuns(d.tag))
  {
    ParseTagRoundTrip(d.tag);
    var re := TagToRe(d.tag).value;
    Parent(file, d.image, re, ParseTag(re, d.tag).value, d.suffix)
  }

  /** `parse_line_from` on a line of `file`. */
  function ParseLineFrom(file: Dockerfile, line: string): (r: Option<Parent>)
    requires DeclarationOk(line)
    ensures r.Some? <==> FromCaptures(line).Some?
    ensures r.Some? ==> r.value == ParentFrom(file, FromCaptures(line).value)
  {
    match FromCaptures(line)
    case None => None
    case Some(d) => Some(ParentFrom(file, d))
  }

  /** Every line that passes the `FROM ` filter has a tag the model can turn into a parent. */
  predicate LinesOk(ls: seq<string>) {
    forall i :: 0 <= i < |ls| && IsFromLine(ls[i]) ==> DeclarationOk(ls[i])
  }

  predicate FilesOk(files: seq<Dockerfile>) {
    forall i :: 0 <= i < |files| ==> LinesOk(Lines(files[i].content))
  }

  /** The `Some` values of `os`, in order (`flat_map` over `Option`s). */
  function Somes<T>(os: seq<Option<T>>): seq<T> {
    if os == [] then [] else (if os[0].Some? then [os[0].value] else []) + Somes(os[1..])
  }

  lemma {:induction false} SomesSpec<T>(os: seq<Option<T>>, x: T)
    ensures x in Somes(os) <==> exists i :: 0 <= i < |os| && os[i] == Some(x)
  {
    if os != [] {
      SomesSpec(os[1..], x);
      if x in Somes(os[1..]) {
        var i :| 0 <= i < |os[1..]| && os[1..][i] == Some(x);
        assert os[i + 1] == Some(x);
      }
      if exists i :: 0 <= i < |os| && os[i] == Some(x) {
        var i :| 0 <= i < |os| && os[i] == Some(x);
        if i > 0 { assert os[1..][i - 1] == Some(x); }
      }
    }
  }

  /** The concatenation of `ss` (`flat_map` over sequences). */
  function Flatten<T>(ss: seq<seq<T>>): seq<T> {
    if ss == [] then [] else ss[0] + Flatten(ss[1..])
  }

  lemma {:induction false} FlattenSpec<T>(ss: seq<seq<T>>, x: T)
    ensures x in Flatten(ss) <==> exists i :: 0 <= i < |ss| && x in ss[i]
  {
    if ss != [] {
      FlattenSpec(ss[1..], x);
      if x in Flatten(ss[1..]) {
        var i :| 0 <= i < |ss[1..]| && x in ss[1..][i];
        assert ss[i + 1] == ss[1..][i];
      }
      if exists i :: 0 <= i < |ss| && x in ss[i] {
        var i :| 0 <= i < |ss| && x in ss[i];
        if i > 0 { assert ss[1..][i - 1] == ss[i]; }
      }
    }
  }

  /** `.filter(|line| line.starts_with("FROM ")).flat_map(parse_line_from)` before flattening: one result per line. */
  function LineResults(file: Dockerfile, ls: seq<string>): (os: seq<Option<Parent>>)
    requires LinesOk(ls)
    ensures |os| == |ls|
    ensures forall i :: 0 <= i < |ls| ==> os[i] == if IsFromLine(ls[i]) then ParseLineFrom(file, ls[i]) else None
  {
    seq(|ls|, i requires 0 <= i < |ls| => if IsFromLine(ls[i]) then ParseLineFrom(file, ls[i]) else None)
  }

  /** The parents of the `FROM` lines among `ls`, in order. */
  function LinesParents(file: Dockerfile, ls: seq<string>): seq<Parent>
    requires LinesOk(ls)
  {
    Somes(LineResults(file, ls))
  }

  /** The parents of each file, file by file. */
  function FileParents(files: seq<Dockerfile>): (pss: seq<seq<Parent>>)
    requires FilesOk(files)
    ensures |pss| == |files|
    ensures forall i :: 0 <= i < |files| ==> pss[i] == LinesParents(files[i], Lines(files[i].content))
  {
    seq(|files|, i requires 0 <= i < |files| => LinesParents(files[i], Lines(files[i].content)))
  }

  /** The `flat_map`/`filter`/`flat_map` part of `extract_parents`, in order. */
  function AllParents(files: seq<Dockerfile>): seq<Parent>
    requires FilesOk(files)
  {
    Flatten(FileParents(files))
  }

  // ----------------------------------------------------------- the parent set

  /** `HashSet<Parent>`: parents keyed by what their equality compares. */
  type ParentSet = map<ParentKey, Parent>

  predicate Keyed(m: ParentSet) {
    forall k :: k in m ==> Key(m[k]) == k
  }

  /**
   * `collect::<HashSet<_>>()`: inserting into a set that already holds an
   * equal parent keeps the one already there.
   */
  function Collect(ps: seq<Parent>): ParentSet {
    if ps == [] then map[]
    else
      var m := Collect(ps[..|ps| - 1]);
      var last := ps[|ps| - 1];
      if Key(last) in m then m else m[Key(last) := last]
  }

  /**
   * The collected set holds one parent per key that occurs, each of them
   * one of the inputs, and for each key the first input with that key.
   */
  lemma CollectSpec(ps: seq<Parent>)
    ensures Keyed(Collect(ps))
    ensures forall k :: k in Collect(ps) ==> Collect(ps)[k] in ps
    ensures forall i :: 0 <= i < |ps| ==> Key(ps[i]) in Collect(ps)
    ensures forall i :: 0 <= i < |ps| && FirstWithKey(ps, i) ==> Collect(ps)[Key(ps[i])] == ps[i]
  {
    CollectValues(ps);
    CollectHasKeys(ps);
    forall i | 0 <= i < |ps| && FirstWithKey(ps, i) ensures Collect(ps)[Key(ps[i])] == ps[i] {
      CollectFirst(ps, i);
    }
  }

  lemma {:induction false} CollectValues(ps: seq<Parent>)
    ensures Keyed(Collect(ps))
    ensures forall k :: k in Collect(ps) ==> Collect(ps)[k] in ps
  {
    if ps != [] {
      var init := ps[..|ps| - 1];
      var last := ps[|ps| - 1];
      CollectValues(init);
      var m := Collect(init);
      assert ps == init + [last];
      forall k | k in m ensures m[k] in ps {
        assert m[k] in init;
      }
    }
  }

  lemma {:induction false} CollectHasKeys(ps: seq<Parent>)
    ensures forall i :: 0 <= i < |ps| ==> Key(ps[i]) in Collect(ps)
  {
    if ps != [] {
      var init := ps[..|ps| - 1];
      CollectHasKeys(init);
      forall i | 0 <= i < |ps| - 1 ensures Key(ps[i]) in Collect(ps) {
        assert ps[i] == init[i];
      }
    }
  }

  lemma {:induction false} CollectFirst(ps: seq<Parent>, i: nat)
    requires i < |ps| && FirstWithKey(ps, i)
    ensures Key(ps[i]) in Collect(ps) && Collect(ps)[Key(ps[i])] == ps[i]
  {
    var init := ps[..|ps| - 1];
    var last := ps[|ps| - 1];
    var m := Collect(init);
    if i < |init| {
      assert ps[i] == init[i];
      assert FirstWithKey(init, i) by {
        forall j | 0 <= j < i ensures Key(init[j]) != Key(init[i]) { assert init[j] == ps[j]; }
      }
      CollectFirst(init, i);
    } else {
      CollectValues(init);
      assert Key(last) !in m by {
        forall k | k in m ensures k != Key(last) {
          var j :| 0 <= j < |init| && init[j] == m[k];
          assert ps[j] == init[j];
        }
      }
    }
  }

  /** No earlier parent of `ps` has the key of `ps[i]`. */
  predicate FirstWithKey(ps: seq<Parent>, i: nat)
    requires i < |ps|
  {
    forall j :: 0 <= j < i ==> Key(ps[j]) != Key(ps[i])
  }

  /** `extract_parents` */
  function ExtractParents(files: seq<Dockerfile>): ParentSet
    requires FilesOk(files)
  {
    Collect(AllParents(files))
  }

  /** A parent of `LinesParents` comes from one of the given lines that starts with `FROM `, and each such line gives one. */
  lemma LinesParentsSpec(file: Dockerfile, ls: seq<string>, p: Parent)
    requires LinesOk(ls)
    ensures p in LinesParents(file, ls) <==>
              exists i :: 0 <= i < |ls| && IsFromLine(ls[i]) && ParseLineFrom(file, ls[i]) == Some(p)
  {
    var os := LineResults(file, ls);
    SomesSpec(os, p);
    if exists i :: 0 <= i < |ls| && IsFromLine(ls[i]) && ParseLineFrom(file, ls[i]) == Some(p) {
      var i :| 0 <= i < |ls| && IsFromLine(ls[i]) && ParseLineFrom(file, ls[i]) == Some(p);
      assert os[i] == Some(p);
    }
    if p in LinesParents(file, ls) {
      var i :| 0 <= i < |os| && os[i] == Some(p);
      assert IsFromLine(ls[i]) && ParseLineFrom(file, ls[i]) == Some(p);
    }
  }

  /** The parent a line of a file gives, if it is a recognised `FROM ` line. */
  predicate FromLineGives(files: seq<Dockerfile>, fi: nat, li: nat, p: Parent)
    requires FilesOk(files)
  {
    && fi < |files| && li < |Lines(files[fi].content)|
    && IsFromLine(Lines(files[fi].content)[li])
    && ParseLineFrom(files[fi], Lines(files[fi].content)[li]) == Some(p)
  }

  /** Every extracted parent comes from a recognised `FROM ` line of one of the files. */
  lemma AllParentsOrigin(files: seq<Dockerfile>, p: Parent)
    requires FilesOk(files) && p in AllParents(files)
    ensures exists fi, li :: FromLineGives(files, fi, li, p)
  {
    var pss := FileParents(files);
    FlattenSpec(pss, p);
    var fi :| 0 <= fi < |pss| && p in pss[fi];
    LinesParentsSpec(files[fi], Lines(files[fi].content), p);
    var li :| 0 <= li < |Lines(files[fi].content)| && IsFromLine(Lines(files[fi].content)[li])
              && ParseLineFrom(files[fi], Lines(files[fi].content)[li]) == Some(p);
    assert FromLineGives(files, fi, li, p);
  }

  /** Every recognised `FROM ` line of every file contributes its parent. */
  lemma AllParentsComplete(files: seq<Dockerfile>, fi: nat, li: nat, p: Parent)
    requires FilesOk(files) && FromLineGives(files, fi, li, p)
    ensures p in AllParents(files)
  {
    var pss := FileParents(files);
    LinesParentsSpec(files[fi], Lines(files[fi].content), p);
    assert p in pss[fi];
    FlattenSpec(pss, p);
  }

  /**
   * The parent set holds exactly the keys of the recognised `FROM ` lines of
   * all the Dockerfiles; each element is the parent of such a line, and the
   * first line with a given key is the one kept.
   */
  lemma ExtractParentsSpec(files: seq<Dockerfile>)
    requires FilesOk(files)
    ensures Keyed(ExtractParents(files))
    ensures forall k :: k in ExtractParents(files) ==>
              exists fi, li :: FromLineGives(files, fi, li, ExtractParents(files)[k])
    ensures forall fi, li, p :: FromLineGives(files, fi, li, p) ==> Key(p) in ExtractParents(files)
  {
    var ps := AllParents(files);
    CollectSpec(ps);
    forall k | k in ExtractParents(files)
      ensures exists fi, li :: FromLineGives(files, fi, li, ExtractParents(files)[k])
    {
      AllParentsOrigin(files, ExtractParents(files)[k]);
    }
    forall fi, li, p | FromLineGives(files, fi, li, p)
      ensures Key(p) in ExtractParents(files)
    {
      AllParentsComplete(files, fi, li, p);
    }
  }
}
