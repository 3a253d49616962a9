/**
 * Pattern synthesis and tag parsing (`src/dvb/convert.rs`).
 *
 * A tag such as `3.6.6-alpine` becomes the pattern `^([0-9]+)\.([0-9]+)\.([0-9]+)\-alpine$`:
 * every maximal run of digits turns into a capture group, `-` and `.` are
 * escaped, and everything else stands for itself. Parsing a tag against such a
 * pattern reads its first four groups as the tag's numbers.
 */
module Convert {
  import opened Text
  import opened Wrappers
  import opened Pattern
  import opened Data

  // ---------------------------------------------------------------- tag_re_str

  /** The escaping step of `tag_re_str`: `.replace('-', "\-").replace('.', "\.")`. */
  function EscapeForRe(s: string): string {
    Replace(Replace(s, '-', "\\-"), '.', "\\.")
  }

  /** `TAG_DIGITS_RE.replace_all(s, "([0-9]+)")`: each maximal digit run becomes one group. */
  function ReplaceDigitRuns(s: string): string
    decreases |s|
  {
    if s == [] then []
    else
      var k := DigitPrefixLen(s);
      if k > 0 then "([0-9]+)" + ReplaceDigitRuns(s[k..])
      else [s[0]] + ReplaceDigitRuns(s[1..])
  }

  /** `tag_re_str`: the tag's regex text without anchors. */
  function TagReStr(tag: string): string {
    ReplaceDigitRuns(EscapeForRe(tag))
  }

  /** The tag read as pattern tokens: one `DigitRun` per maximal digit run, a literal otherwise. */
  function Tokenize(tag: string): seq<Token>
    decreases |tag|
  {
    if tag == [] then []
    else
      var k := DigitPrefixLen(tag);
      if k > 0 then [DigitRun] + Tokenize(tag[k..])
      else [Lit(tag[0])] + Tokenize(tag[1..])
  }

  /** The maximal runs of digits of `tag`, left to right. */
  function DigitRuns(tag: string): (runs: seq<string>)
    ensures forall i :: 0 <= i < |runs| ==> |runs[i]| > 0 && AllDigits(runs[i])
    decreases |tag|
  {
    if tag == [] then []
    else
      var k := DigitPrefixLen(tag);
      if k > 0 then [tag[..k]] + DigitRuns(tag[k..])
      else DigitRuns(tag[1..])
  }

  // ----------------------------------------------------- escaping, piece by piece

  function EscapeChar(c: char): string {
    if c == '-' then "\\-" else if c == '.' then "\\." else [c]
  }

  /** Escaping a non-digit yields no digit. */
  lemma EscapeCharNoDigits(c: char)
    requires !IsDigit(c)
    ensures forall i :: 0 <= i < |EscapeChar(c)| ==> !IsDigit(EscapeChar(c)[i])
  {
    var x := EscapeChar(c);
    if c == '-' { assert x == "\\-"; } else if c == '.' { assert x == "\\."; } else { assert x == [c]; }
  }

  lemma EscapeAppend(a: string, b: string)
    ensures EscapeForRe(a + b) == EscapeForRe(a) + EscapeForRe(b)
  {
    ReplaceAppend(a, b, '-', "\\-");
    ReplaceAppend(Replace(a, '-', "\\-"), Replace(b, '-', "\\-"), '.', "\\.");
  }

  lemma EscapeCons(c: char, t: string)
    ensures EscapeForRe([c] + t) == EscapeChar(c) + EscapeForRe(t)
  {
    EscapeAppend([c], t);
    assert Replace([c], '-', "\\-") == (if c == '-' then "\\-" else [c]);
    if c == '-' {
      assert Replace("\\-", '.', "\\.") == "\\-";
    } else {
      assert Replace([c], '.', "\\.") == (if c == '.' then "\\." else [c]);
    }
  }

  lemma {:induction false} DigitPrefixLenAppend(d: string, e: string)
    requires AllDigits(d) && (e == [] || !IsDigit(e[0]))
    ensures DigitPrefixLen(d + e) == |d|
  {
    if d != [] {
      assert (d + e)[1..] == d[1..] + e;
      DigitPrefixLenAppend(d[1..], e);
    }
  }

  lemma {:induction false} ReplaceDigitRunsNoDigits(x: string, rest: string)
    requires forall i :: 0 <= i < |x| ==> !IsDigit(x[i])
    ensures ReplaceDigitRuns(x + rest) == x + ReplaceDigitRuns(rest)
  {
    if x == [] {
      assert x + rest == rest;
    } else {
      var t := x[1..];
      assert (x + rest)[0] == x[0];
      assert DigitPrefixLen(x + rest) == 0;
      assert (x + rest)[1..] == t + rest;
      assert ReplaceDigitRuns(x + rest) == [x[0]] + ReplaceDigitRuns(t + rest);
      ReplaceDigitRunsNoDigits(t, rest);
      AppendAssoc([x[0]], t, ReplaceDigitRuns(rest));
      assert x == [x[0]] + t;
    }
  }

  /**
   * The two string rewrites of `tag_re_str` give exactly the regex text of the
   * token reading of the tag: escaping and group substitution never interfere.
   */
  lemma {:induction false} TagReStrIsRender(tag: string)
    ensures TagReStr(tag) == Render(Tokenize(tag))
    decreases |tag|
  {
    if tag != [] {
      var k := DigitPrefixLen(tag);
      if k > 0 {
        var e := tag[k..];
        TagReStrIsRender(e);
        TagReStrDigitStep(tag, k);
      } else {
        var e := tag[1..];
        TagReStrIsRender(e);
        TagReStrLiteralStep(tag);
      }
    }
  }

  /** A leading digit run becomes one group; the rest is rewritten on its own. */
  lemma TagReStrDigitStep(tag: string, k: nat)
    requires 0 < k == DigitPrefixLen(tag)
    ensures TagReStr(tag) == "([0-9]+)" + TagReStr(tag[k..])
  {
    var d, e := tag[..k], tag[k..];
    assert tag == d + e;
    EscapeAppend(d, e);
    assert EscapeForRe(d) == d;
    var ee := EscapeForRe(e);
    if e != [] {
      EscapeCons(e[0], e[1..]);
      assert e == [e[0]] + e[1..];
      assert ee[0] == EscapeChar(e[0])[0];
    }
    DigitPrefixLenAppend(d, ee);
    assert (d + ee)[k..] == ee;
  }

  /** A leading non-digit is escaped on its own; the rest is rewritten on its own. */
  lemma TagReStrLiteralStep(tag: string)
    requires tag != [] && DigitPrefixLen(tag) == 0
    ensures TagReStr(tag) == EscapeChar(tag[0]) + TagReStr(tag[1..])
  {
    var c, e := tag[0], tag[1..];
    assert tag == [c] + e;
    assert !IsDigit(c);
    var x := EscapeChar(c);
    EscapeCharNoDigits(c);
    EscapeCons(c, e);
    assert TagReStr(tag) == ReplaceDigitRuns(x + EscapeForRe(e));
    ReplaceDigitRunsNoDigits(x, EscapeForRe(e));
  }

  /** Every digit group of a synthesized pattern is followed by a non-digit literal or the end. */
  lemma {:induction false} TokenizeWellFormed(tag: string)
    ensures WellFormed(Tokenize(tag))
    decreases |tag|
  {
    if tag != [] {
      var k := DigitPrefixLen(tag);
      var rest := if k > 0 then tag[k..] else tag[1..];
      TokenizeWellFormed(rest);
      var ts := Tokenize(tag);
      assert ts[1..] == Tokenize(rest);
      if k > 0 && rest != [] {
        assert Tokenize(rest)[0] == Lit(rest[0]);
      }
    }
  }

  /** The literals of a Docker tag's pattern are Docker characters. */
  lemma {:induction false} TokenizeDockerLits(tag: string)
    requires IsDockerTag(tag)
    ensures DockerLits(Tokenize(tag))
    decreases |tag|
  {
    if tag != [] {
      var k := DigitPrefixLen(tag);
      var rest := if k > 0 then tag[k..] else tag[1..];
      TokenizeDockerLits(rest);
      assert Tokenize(tag)[1..] == Tokenize(rest);
    }
  }

  /** A tag matches its own pattern, and the capture groups are its digit runs. */
  lemma {:induction false} MatchOwnTag(tag: string)
    ensures Match(Tokenize(tag), tag) == Some(DigitRuns(tag))
    decreases |tag|
  {
    if tag != [] {
      var k := DigitPrefixLen(tag);
      if k > 0 {
        MatchOwnTag(tag[k..]);
        assert Tokenize(tag)[1..] == Tokenize(tag[k..]);
      } else {
        MatchOwnTag(tag[1..]);
        assert Tokenize(tag)[1..] == Tokenize(tag[1..]);
      }
    }
  }

  // ---------------------------------------------------------- tag_to_re and co.

  /**
   * `tag_to_re`: the anchored pattern of a tag. For a tag in the Docker
   * alphabet the regex always compiles, so the error branch is never taken.
   */
  function TagToRe(tag: string): (r: Result<Regex>)
    requires IsDockerTag(tag)
    ensures r.Ok? && AsStr(r.value) == "^" + TagReStr(tag) + "$"
    ensures WellFormed(r.value.tokens) && DockerLits(r.value.tokens)
    ensures GroupCount(r.value.tokens) == |DigitRuns(tag)|
  {
    TagReStrIsRender(tag);
    TokenizeWellFormed(tag);
    TokenizeDockerLits(tag);
    MatchOwnTag(tag);
    Ok(Regex(Tokenize(tag)))
  }

  /** The regex text of `image_tag_to_re`; the image and suffix are inserted unescaped. */
  function ImageTagToRe(image: string, tag: string, suffix: string): string {
    "^FROM\\s+" + image + ":" + TagReStr(tag) + "\\s+" + suffix + "$"
  }

  /** Text without regex metacharacters: inserted into a pattern, it matches only itself. */
  predicate IsPlain(s: string) {
    forall i :: 0 <= i < |s| ==> s[i] !in "\\.+*?()|[]{}^$"
  }

  /**
   * Where a line meets the `image_tag_to_re` pattern: whitespace after `FROM`
   * ends at `a`, the text the tag pattern reads ends at `b`, the whitespace
   * after it at `c`; the image and the suffix stand for themselves.
   */
  datatype DeclCut = DeclCut(a: nat, b: nat, c: nat)

  predicate IsDeclCut(image: string, tag: string, suffix: string, line: string, q: DeclCut) {
    var t := q.a + |image| + 1;
    && |line| >= 4 && line[..4] == "FROM"
    && 4 < q.a && AllWsIn(line, 4, q.a)
    && t <= q.b < q.c <= |line|
    && line[q.a..t - 1] == image && line[t - 1] == ':'
    && Match(Tokenize(tag), line[t..q.b]).Some?
    && AllWsIn(line, q.b, q.c)
    && line[q.c..] == suffix
  }

  /** The lines the declaration pattern accepts, when image and suffix are plain text. */
  ghost predicate DeclarationAccepts(image: string, tag: string, suffix: string, line: string) {
    exists q :: IsDeclCut(image, tag, suffix, line, q)
  }

  /** The declaration pattern accepts the line `FROM image:tag suffix` it was built from. */
  lemma DeclarationAcceptsOwnLine(image: string, tag: string, suffix: string)
    requires IsPlain(image) && IsPlain(suffix) && IsDockerTag(tag)
    ensures DeclarationAccepts(image, tag, suffix, "FROM " + (image + (":" + (tag + (" " + suffix)))))
  {
    OwnLineCut(image, tag, suffix, "FROM " + (image + (":" + (tag + (" " + suffix)))));
  }

  /** Where the line `FROM image:tag suffix` is cut. */
  lemma OwnLineCut(image: string, tag: string, suffix: string, line: string)
    requires line == "FROM " + (image + (":" + (tag + (" " + suffix))))
    ensures DeclarationAccepts(image, tag, suffix, line)
  {
    var r3 := tag + (" " + suffix);
    var r2 := ":" + r3;
    var r1 := image + r2;
    var t := 5 + |image| + 1;
    var q := DeclCut(5, t + |tag|, t + |tag| + 1);
    assert line[5..] == r1;
    assert line[q.a..t - 1] == r1[..|image|] == image;
    assert line[t - 1..] == r2;
    assert line[t..] == r3;
    assert line[t..q.b] == r3[..|tag|] == tag;
    assert line[q.c..] == r3[|tag| + 1..] == suffix;
    assert line[..4] == "FROM" && line[4] == ' ';
    assert line[q.b] == r3[|tag|] == ' ';
    assert AllWsIn(line, 4, q.a);
    assert AllWsIn(line, q.b, q.c);
    assert line[t - 1] == ':';
    MatchOwnTag(tag);
    assert Match(Tokenize(tag), line[t..q.b]).Some?;
    assert |line| == q.c + |suffix|;
    assert IsDeclCut(image, tag, suffix, line, q);
  }

  /**
   * `\s+` before an empty suffix is not optional: with no suffix the pattern
   * accepts only lines that end in whitespace.
   */
  lemma DeclarationNeedsTrailingWs(image: string, tag: string, line: string)
    requires IsPlain(image)
    ensures DeclarationAccepts(image, tag, "", line) ==> |line| > 0 && IsWs(line[|line| - 1])
  {
    if DeclarationAccepts(image, tag, "", line) {
      var q :| IsDeclCut(image, tag, "", line, q);
      assert q.c == |line|;
    }
  }

  /** So the line `FROM image:tag` with no suffix is rejected by the pattern built from it. */
  lemma DeclarationRejectsBareLine(image: string, tag: string)
    requires IsPlain(image) && tag != [] && IsDockerTag(tag)
    ensures !DeclarationAccepts(image, tag, "", "FROM " + image + ":" + tag)
  {
    var line := "FROM " + image + ":" + tag;
    DeclarationNeedsTrailingWs(image, tag, line);
    assert line[|line| - 1] == tag[|tag| - 1];
  }

  // ------------------------------------------------------------------ parse_tag

  /** Every group that `parse_tag` reads (the first four) fits in a `u32`. */
  predicate GroupsFitU32(re: Regex, tag: string) {
    match Match(re.tokens, tag)
    case None => true
    case Some(caps) => forall i :: 0 <= i < |caps| && i < 4 ==> DecimalValue(caps[i]) <= U32_MAX
  }

  /** `parts.get(i)` for the groups of a match (group 0, the whole match, is not kept). */
  function Group(caps: seq<string>, i: nat): Option<string>
    requires i >= 1
  {
    if i - 1 < |caps| then Some(caps[i - 1]) else None
  }

  /** `match_to_nr`: a present group as a decimal number, an absent one as 0. */
  function MatchToNr(m: Option<string>): U32
    requires m.Some? ==> AllDigits(m.value) && DecimalValue(m.value) <= U32_MAX
  {
    match m
    case Some(s) => DecimalValue(s)
    case None => 0
  }

  /** The four numbers of a tag as a sequence. */
  function NrsSeq(t: Tag): seq<int> {
    [t.nrs.0, t.nrs.1, t.nrs.2, t.nrs.3]
  }

  /** The first four groups' values, missing ones taken as 0. */
  function FirstFour(caps: seq<string>): (r: seq<int>)
    requires forall i :: 0 <= i < |caps| ==> AllDigits(caps[i])
    ensures |r| == 4
  {
    seq(4, i requires 0 <= i < 4 => if i < |caps| then DecimalValue(caps[i]) else 0)
  }

  function CaptureError(re: Regex, tag: string): string {
    "could not extract digits from tag; tag: " + tag + ", pattern: " + AsStr(re) + ", failed to capture"
  }

  /**
   * `parse_tag`: match the tag against the pattern and read groups 1 to 4
   * as the tag's numbers. The tag text is kept as the name.
   */
  function ParseTag(re: Regex, tag: string): (r: Result<Tag>)
    requires GroupsFitU32(re, tag)
    ensures r.Err? <==> !IsMatch(re, tag)
    ensures r.Err? ==> r.error == CaptureError(re, tag)
    ensures r.Ok? ==> r.value.name == tag && NrsSeq(r.value) == FirstFour(Match(re.tokens, tag).value)
  {
    match Match(re.tokens, tag)
    case None => Err(CaptureError(re, tag))
    case Some(caps) =>
      var nrs := (MatchToNr(Group(caps, 1)), MatchToNr(Group(caps, 2)),
                  MatchToNr(Group(caps, 3)), MatchToNr(Group(caps, 4)));
      Ok(Tag(tag, nrs))
  }

  /** The first four digit runs of the tag fit in a `u32`. */
  predicate DigitRunsFitU32(tag: string) {
    var runs := DigitRuns(tag);
    forall i :: 0 <= i < |runs| && i < 4 ==> DecimalValue(runs[i]) <= U32_MAX
  }

  /**
   * Round trip: a Docker tag parsed against its own pattern succeeds, keeps
   * its text as the name, and its numbers are its first four digit runs,
   * padded with zeros.
   */
  lemma ParseTagRoundTrip(tag: string)
    requires IsDockerTag(tag) && DigitRunsFitU32(tag)
    ensures GroupsFitU32(TagToRe(tag).value, tag)
    ensures ParseTag(TagToRe(tag).value, tag).Ok?
    ensures ParseTag(TagToRe(tag).value, tag).value.name == tag
    ensures NrsSeq(ParseTag(TagToRe(tag).value, tag).value) == FirstFour(DigitRuns(tag))
  {
    MatchOwnTag(tag);
  }

  lemma {:induction false} DigitRunsLeading(d: string, rest: string)
    requires |d| > 0 && AllDigits(d) && (rest == [] || !IsDigit(rest[0]))
    ensures DigitRuns(d + rest) == [d] + DigitRuns(rest)
  {
    DigitPrefixLenAppend(d, rest);
    assert (d + rest)[..|d|] == d && (d + rest)[|d|..] == rest;
  }

  lemma DigitRunsDot(rest: string)
    ensures DigitRuns("." + rest) == DigitRuns(rest)
  {
    assert ("." + rest)[1..] == rest;
  }

  /** A run of digits, a dot, and the rest: the run is one digit run and the dot separates it from the rest. */
  lemma DigitRunsDotStep(d: string, rest: string)
    requires |d| > 0 && AllDigits(d)
    ensures DigitRuns(d + ("." + rest)) == [d] + DigitRuns(rest)
  {
    DigitRunsLeading(d, "." + rest);
    DigitRunsDot(rest);
  }

  lemma DigitRunsDotted(a: string, b: string, c: string, d: string)
    requires |a| > 0 && AllDigits(a) && |b| > 0 && AllDigits(b)
    requires |c| > 0 && AllDigits(c) && |d| > 0 && AllDigits(d)
    ensures DigitRuns(a + ("." + (b + ("." + (c + ("." + d)))))) == [a, b, c, d]
  {
    DigitRunsLeading(d, []);
    assert d + [] == d;
    var cd := c + ("." + d);
    DigitRunsDotStep(c, d);
    assert DigitRuns(cd) == [c, d];
    var bcd := b + ("." + cd);
    DigitRunsDotStep(b, cd);
    assert DigitRuns(bcd) == [b, c, d];
    DigitRunsDotStep(a, bcd);
  }

  /** The digit runs of a displayed tag are exactly its four numerals. */
  lemma DisplayDigitRuns(t: Tag)
    ensures DigitRuns(Display(t)) ==
      [NatToDecimal(t.nrs.0), NatToDecimal(t.nrs.1), NatToDecimal(t.nrs.2), NatToDecimal(t.nrs.3)]
  {
    var a, b, c, d := NatToDecimal(t.nrs.0), NatToDecimal(t.nrs.1), NatToDecimal(t.nrs.2), NatToDecimal(t.nrs.3);
    DigitRunsDotted(a, b, c, d);
  }

  /**
   * The text a tag is displayed as (the replacement text of the patcher)
   * parses back, against its own pattern, to the same numbers.
   */
  lemma DisplayReparses(t: Tag)
    ensures IsDockerTag(Display(t)) && DigitRunsFitU32(Display(t))
    ensures GroupsFitU32(TagToRe(Display(t)).value, Display(t))
    ensures ParseTag(TagToRe(Display(t)).value, Display(t)) == Ok(Tag(Display(t), t.nrs))
  {
    var s := Display(t);
    DisplayFirstFour(t);
    ParseTagRoundTrip(s);
    var r := ParseTag(TagToRe(s).value, s).value;
    assert NrsSeq(r) == NrsSeq(Tag(s, t.nrs));
  }

  lemma DisplayFirstFour(t: Tag)
    ensures IsDockerTag(Display(t)) && DigitRunsFitU32(Display(t))
    ensures FirstFour(DigitRuns(Display(t))) == NrsSeq(t)
  {
    DisplayDigitRuns(t);
    DecimalRoundTrip(t.nrs.0);
    DecimalRoundTrip(t.nrs.1);
    DecimalRoundTrip(t.nrs.2);
    DecimalRoundTrip(t.nrs.3);
  }
}
