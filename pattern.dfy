/**
 * The shape of the regular expressions the tool synthesizes from tags.
 *
 * A tag pattern is `^` + a sequence of pieces + `$`, where each piece is
 * either one literal character or the capture group `([0-9]+)`. This module
 * gives the pattern's regex text and the anchored full match with its
 * capture groups, without a general regex engine.
 */
module Pattern {
  import opened Text
  import opened Wrappers

  datatype Token = Lit(c: char) | DigitRun

  /** A compiled anchored tag pattern: the tokens between `^` and `$`. */
  datatype Regex = Regex(tokens: seq<Token>)

  /** The regex text of one token: `-` and `.` escaped, a digit run as a capture group. */
  function RenderToken(t: Token): string {
    match t
    case Lit(c) => if c == '-' then "\\-" else if c == '.' then "\\." else [c]
    case DigitRun => "([0-9]+)"
  }

  function Render(ts: seq<Token>): string {
    if ts == [] then "" else RenderToken(ts[0]) + Render(ts[1..])
  }

  /** `Regex::as_str`. */
  function AsStr(re: Regex): string {
    "^" + Render(re.tokens) + "$"
  }

  /** Number of capture groups of the pattern. */
  function GroupCount(ts: seq<Token>): nat {
    if ts == [] then 0 else (if ts[0].DigitRun? then 1 else 0) + GroupCount(ts[1..])
  }

  /**
   * Anchored full match with greedy digit groups. On success the result
   * holds the text of every capture group, in order.
   */
  function Match(ts: seq<Token>, s: string): (r: Option<seq<string>>)
    ensures r.Some? ==> |r.value| == GroupCount(ts)
    ensures r.Some? ==> forall i :: 0 <= i < |r.value| ==> |r.value[i]| > 0 && AllDigits(r.value[i])
  {
    if ts == [] then
      if s == [] then Some([]) else None
    else match ts[0]
      case Lit(c) =>
        if s != [] && s[0] == c then Match(ts[1..], s[1..]) else None
      case DigitRun =>
        var k := DigitPrefixLen(s);
        if k == 0 then None
        else match Match(ts[1..], s[k..])
          case None => None
          case Some(caps) => Some([s[..k]] + caps)
  }

  /** `Regex::is_match` of the anchored pattern. */
  predicate IsMatch(re: Regex, s: string) {
    Match(re.tokens, s).Some?
  }

  /**
   * No digit group is directly followed by something that can match a
   * digit. For such patterns the greedy choice is the only one.
   */
  predicate WellFormed(ts: seq<Token>) {
    forall i :: 0 <= i < |ts| - 1 && ts[i].DigitRun? ==> ts[i + 1].Lit? && !IsDigit(ts[i + 1].c)
  }

  /**
   * The regex meaning of the pattern, with no preference among matches:
   * `s` matches and `caps` are the groups for SOME way of splitting `s`.
   */
  ghost predicate Matches(ts: seq<Token>, s: string, caps: seq<string>)
    decreases |ts|
  {
    if ts == [] then s == [] && caps == []
    else match ts[0]
      case Lit(c) => |s| > 0 && s[0] == c && Matches(ts[1..], s[1..], caps)
      case DigitRun =>
        && |caps| > 0 && 0 < |caps[0]| <= |s|
        && s[..|caps[0]|] == caps[0] && AllDigits(caps[0])
        && Matches(ts[1..], s[|caps[0]|..], caps[1..])
  }

  /** What the greedy matcher returns is a match in the regex sense. */
  lemma {:induction false} MatchSound(ts: seq<Token>, s: string)
    requires Match(ts, s).Some?
    ensures Matches(ts, s, Match(ts, s).value)
  {
    if ts != [] {
      match ts[0]
      case Lit(c) => MatchSound(ts[1..], s[1..]);
      case DigitRun =>
        var k := DigitPrefixLen(s);
        MatchSound(ts[1..], s[k..]);
        var caps := Match(ts, s).value;
        assert caps[0] == s[..k] && caps[1..] == Match(ts[1..], s[k..]).value;
    }
  }

  /**
   * For a well-formed pattern every regex match is the greedy one: the
   * capture groups of a match are unique, so any regex engine yields them.
   */
  lemma {:induction false} MatchComplete(ts: seq<Token>, s: string, caps: seq<string>)
    requires WellFormed(ts) && Matches(ts, s, caps)
    ensures Match(ts, s) == Some(caps)
  {
    if ts != [] {
      assert WellFormed(ts[1..]) by {
        forall i | 0 <= i < |ts[1..]| - 1 && ts[1..][i].DigitRun?
          ensures ts[1..][i + 1].Lit? && !IsDigit(ts[1..][i + 1].c)
        {
          assert ts[1..][i] == ts[i + 1] && ts[1..][i + 1] == ts[i + 2];
        }
      }
      match ts[0]
      case Lit(c) => MatchComplete(ts[1..], s[1..], caps);
      case DigitRun =>
        var k := |caps[0]|;
        DigitPrefixLenMaximal(s, k);
        // A longer digit prefix would have to be consumed by the next
        // token, which is a non-digit literal (or the end of the pattern).
        assert DigitPrefixLen(s) == k;
        MatchComplete(ts[1..], s[k..], caps[1..]);
        assert caps == [s[..k]] + caps[1..];
    }
  }

  /** All literal characters of the pattern are in the Docker tag alphabet. */
  predicate DockerLits(ts: seq<Token>) {
    forall i :: 0 <= i < |ts| && ts[i].Lit? ==> IsDockerChar(ts[i].c)
  }

  /** A pattern whose literals are Docker characters matches only Docker tags. */
  lemma {:induction false} MatchOnlyDockerTags(ts: seq<Token>, s: string)
    requires DockerLits(ts) && Match(ts, s).Some?
    ensures IsDockerTag(s)
  {
    if ts != [] {
      assert DockerLits(ts[1..]) by {
        forall i | 0 <= i < |ts[1..]| && ts[1..][i].Lit? ensures IsDockerChar(ts[1..][i].c) {
          assert ts[1..][i] == ts[i + 1];
        }
      }
      match ts[0]
      case Lit(c) =>
        MatchOnlyDockerTags(ts[1..], s[1..]);
        assert s == [s[0]] + s[1..];
      case DigitRun =>
        var k := DigitPrefixLen(s);
        MatchOnlyDockerTags(ts[1..], s[k..]);
        assert s == s[..k] + s[k..];
        forall i | 0 <= i < |s| ensures IsDockerChar(s[i]) {
          if i < k { assert s[..k][i] == s[i]; } else { assert s[k..][i - k] == s[i]; }
        }
    }
  }
}
