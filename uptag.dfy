/**
 * Choosing the newest tag for a parent (`src/dvb/uptag.rs`): pull every
 * `"name": "<v>"` out of the registry's answer, keep the candidates that
 * match the parent's tag pattern, parse them, keep those at least as new as
 * the current tag, sort, and take the largest.
 */
module Uptag {
  import opened Text
  import opened Wrappers
  import opened Pattern
  import opened Data
  import opened Convert

  // --------------------------------------------------------------- NAME_TAG_RE

  const NamePrefix: string := "\"name\":"

  /** One match of `"name":\s*"([^"]*)"`: `data[start..end]` is group 0, `value` is group 1. */
  datatype NameMatch = NameMatch(start: nat, end: nat, ws: string, value: string)

  /** Index of the first `"` at or after `i`, or `|s|`. */
  function QuoteIndex(s: string, i: nat): (k: nat)
    requires i <= |s|
    ensures i <= k <= |s| && (k < |s| ==> s[k] == '"')
    ensures forall c :: i <= c < k ==> s[c] != '"'
    decreases |s| - i
  {
    if i == |s| || s[i] == '"' then i else QuoteIndex(s, i + 1)
  }

  /**
   * Whether the regex matches starting at `i` with whitespace `w` and value
   * `v`, with no preference among ways of matching: `"name":`, then `w`,
   * then `"`, then `v`, then `"`.
   */
  ghost predicate IsNameMatch(data: string, i: nat, w: string, v: string) {
    var n := |NamePrefix|;
    var j := i + n + |w|;
    && j + |v| + 2 <= |data|
    && data[i..i + n] == NamePrefix
    && data[i + n..j] == w && (forall c :: 0 <= c < |w| ==> IsWs(w[c]))
    && data[j] == '"'
    && data[j + 1..j + 1 + |v|] == v && '"' !in v
    && data[j + 1 + |v|] == '"'
  }

  /** The match of `NAME_TAG_RE` that starts at `i`, if any. */
  function NameMatchAt(data: string, i: nat): (r: Option<NameMatch>)
    requires i <= |data|
    ensures r.Some? ==> r.value.start == i && i < r.value.end <= |data|
  {
    if i + |NamePrefix| <= |data| && data[i..i + |NamePrefix|] == NamePrefix then
      var j := SkipWs(data, i + |NamePrefix|);
      if j < |data| && data[j] == '"' then
        var k := QuoteIndex(data, j + 1);
        if k < |data| then Some(NameMatch(i, k + 1, data[i + |NamePrefix|..j], data[j + 1..k])) else None
      else None
    else None
  }

  /**
   * At each position the regex has at most one match, and `NameMatchAt`
   * finds it.
   */
  lemma NameMatchAtSpec(data: string, i: nat)
    requires i <= |data|
    ensures NameMatchAt(data, i).Some? ==>
              var m := NameMatchAt(data, i).value;
              IsNameMatch(data, i, m.ws, m.value) && m.end == i + |NamePrefix| + |m.ws| + |m.value| + 2
    ensures forall w, v :: IsNameMatch(data, i, w, v) ==>
              NameMatchAt(data, i).Some? && NameMatchAt(data, i).value.ws == w && NameMatchAt(data, i).value.value == v
  {
    if NameMatchAt(data, i).Some? {
      NameMatchAtSound(data, i);
    }
    forall w, v | IsNameMatch(data, i, w, v)
      ensures NameMatchAt(data, i).Some? && NameMatchAt(data, i).value.ws == w && NameMatchAt(data, i).value.value == v
    {
      NameMatchUnique(data, i, w, v);
    }
  }

  lemma NameMatchAtSound(data: string, i: nat)
    requires i <= |data| && NameMatchAt(data, i).Some?
    ensures var m := NameMatchAt(data, i).value;
            IsNameMatch(data, i, m.ws, m.value) && m.end == i + |NamePrefix| + |m.ws| + |m.value| + 2
  {
    var n := |NamePrefix|;
    var j := SkipWs(data, i + n);
    var k := QuoteIndex(data, j + 1);
    var m := NameMatchAt(data, i).value;
    assert m == NameMatch(i, k + 1, data[i + n..j], data[j + 1..k]);
    forall c | 0 <= c < |m.ws| ensures IsWs(m.ws[c]) {
      assert m.ws[c] == data[i + n + c];
    }
    forall c | 0 <= c < |m.value| ensures m.value[c] != '"' {
      assert m.value[c] == data[j + 1 + c];
    }
  }

  lemma NameMatchUnique(data: string, i: nat, w: string, v: string)
    requires IsNameMatch(data, i, w, v)
    ensures NameMatchAt(data, i).Some? && NameMatchAt(data, i).value.ws == w && NameMatchAt(data, i).value.value == v
  {
    var n := |NamePrefix|;
    var j := i + n + |w|;
    var e := j + 1 + |v|;
    assert AllWsIn(data, i + n, j) by {
      forall c | i + n <= c < j ensures IsWs(data[c]) {
        assert data[c] == data[i + n..j][c - i - n];
      }
    }
    var j' := SkipWs(data, i + n);
    assert !IsWs(data[j]);
    assert j' == j;
    forall c | j + 1 <= c < e ensures data[c] != '"' {
      assert data[c] == data[j + 1..e][c - j - 1];
    }
    var k := QuoteIndex(data, j + 1);
    assert data[e] == '"';
    assert k == e;
  }

  /** `NAME_TAG_RE.captures_iter(data)` from position `from`: leftmost matches, left to right, not overlapping. */
  function ScanNames(data: string, from: nat): (ms: seq<NameMatch>)
    requires from <= |data|
    ensures forall i :: 0 <= i < |ms| ==> from <= ms[i].start < ms[i].end <= |data|
    ensures forall i :: 0 <= i < |ms| - 1 ==> ms[i].end <= ms[i + 1].start
    decreases |data| - from
  {
    if from == |data| then []
    else match NameMatchAt(data, from)
      case Some(m) => [m] + ScanNames(data, m.end)
      case None => ScanNames(data, from + 1)
  }

  /** Each reported match is the match of the regex at its start. */
  lemma {:induction false} ScanNamesMatches(data: string, from: nat)
    requires from <= |data|
    ensures forall i :: 0 <= i < |ScanNames(data, from)| ==>
              NameMatchAt(data, ScanNames(data, from)[i].start) == Some(ScanNames(data, from)[i])
    decreases |data| - from
  {
    if from < |data| {
      ScanNamesUnfold(data, from);
      var here := NameMatchAt(data, from);
      if here.Some? {
        ScanNamesMatches(data, here.value.end);
        var rest := ScanNames(data, here.value.end);
        forall i | 0 <= i < |rest| ensures NameMatchAt(data, rest[i].start) == Some(rest[i]) {
        }
      } else {
        ScanNamesMatches(data, from + 1);
      }
    }
  }

  /** Position `p` lies inside one of the reported matches. */
  ghost predicate Covered(ms: seq<NameMatch>, p: nat) {
    exists i :: 0 <= i < |ms| && ms[i].start <= p < ms[i].end
  }

  /** No match is missed: every position where the regex could match lies inside a reported match. */
  lemma {:induction false} ScanNamesComplete(data: string, from: nat, p: nat)
    requires from <= p < |data| && NameMatchAt(data, p).Some?
    ensures Covered(ScanNames(data, from), p)
    decreases |data| - from
  {
    var ms := ScanNames(data, from);
    var here := NameMatchAt(data, from);
    ScanNamesUnfold(data, from);
    if here.Some? {
      var m := here.value;
      var rest := ScanNames(data, m.end);
      assert ms == [m] + rest;
      if p < m.end {
        assert ms[0].start <= p < ms[0].end;
      } else {
        ScanNamesComplete(data, m.end, p);
        var i :| 0 <= i < |rest| && rest[i].start <= p < rest[i].end;
        assert ms[i + 1] == rest[i];
      }
    } else {
      assert p != from;
      ScanNamesComplete(data, from + 1, p);
    }
  }

  /** One step of the scan: a match at `from` is reported and the scan resumes at its end; otherwise it moves on by one. */
  lemma ScanNamesUnfold(data: string, from: nat)
    requires from < |data|
    ensures NameMatchAt(data, from).Some? ==>
              ScanNames(data, from) == [NameMatchAt(data, from).value] + ScanNames(data, NameMatchAt(data, from).value.end)
    ensures NameMatchAt(data, from).None? ==> ScanNames(data, from) == ScanNames(data, from + 1)
  {
  }

  /** `tag[1]` of each match. */
  function Values(ms: seq<NameMatch>): (vs: seq<string>)
    ensures |vs| == |ms| && forall i :: 0 <= i < |ms| ==> vs[i] == ms[i].value
  {
    if ms == [] then [] else [ms[0].value] + Values(ms[1..])
  }

  /** `tag[0]` of each match: the whole `"name": "<v>"` text. */
  function Wholes(data: string, ms: seq<NameMatch>): (ws: seq<string>)
    requires forall i :: 0 <= i < |ms| ==> ms[i].start < ms[i].end <= |data|
    ensures |ws| == |ms| && forall i :: 0 <= i < |ms| ==> ws[i] == data[ms[i].start..ms[i].end]
  {
    if ms == [] then [] else [data[ms[0].start..ms[0].end]] + Wholes(data, ms[1..])
  }

  // ----------------------------------------------------------------- selection

  predicate AllFit(re: Regex, cands: seq<string>) {
    forall i :: 0 <= i < |cands| ==> GroupsFitU32(re, cands[i])
  }

  /**
   * `.filter(is_match).map(parse_tag(..).unwrap()).filter(tag >= current)`:
   * the parsed candidates that match the pattern and are not older than `current`.
   */
  function Survivors(re: Regex, current: Tag, cands: seq<string>): seq<Tag>
    requires AllFit(re, cands)
  {
    if cands == [] then []
    else
      var here :=
        if IsMatch(re, cands[0]) && Ge(ParseTag(re, cands[0]).value, current)
        then [ParseTag(re, cands[0]).value] else [];
      here + Survivors(re, current, cands[1..])
  }

  lemma AllFitTail(re: Regex, cands: seq<string>)
    requires AllFit(re, cands) && cands != []
    ensures AllFit(re, cands[1..])
  {
    forall i | 0 <= i < |cands[1..]| ensures GroupsFitU32(re, cands[1..][i]) { assert cands[1..][i] == cands[i + 1]; }
  }

  /**
   * A survivor is a parsed candidate that matched and is `>=` the current
   * tag; and every such candidate survives.
   */
  lemma {:induction false} SurvivorsSpec(re: Regex, current: Tag, cands: seq<string>)
    requires AllFit(re, cands)
    ensures forall t :: t in Survivors(re, current, cands) ==>
              Ge(t, current) && exists i :: 0 <= i < |cands| && ParseTag(re, cands[i]) == Ok(t)
    ensures forall i :: 0 <= i < |cands| && IsMatch(re, cands[i]) && Ge(ParseTag(re, cands[i]).value, current) ==>
              ParseTag(re, cands[i]).value in Survivors(re, current, cands)
  {
    if cands != [] {
      AllFitTail(re, cands);
      SurvivorsSpec(re, current, cands[1..]);
      forall t | t in Survivors(re, current, cands)
        ensures Ge(t, current) && exists i :: 0 <= i < |cands| && ParseTag(re, cands[i]) == Ok(t)
      {
        if t !in Survivors(re, current, cands[1..]) {
          assert ParseTag(re, cands[0]) == Ok(t);
        } else {
          var i :| 0 <= i < |cands[1..]| && ParseTag(re, cands[1..][i]) == Ok(t);
          assert cands[1..][i] == cands[i + 1];
        }
      }
      forall i | 0 <= i < |cands| && IsMatch(re, cands[i]) && Ge(ParseTag(re, cands[i]).value, current)
        ensures ParseTag(re, cands[i]).value in Survivors(re, current, cands)
      {
        if i > 0 { assert cands[1..][i - 1] == cands[i]; }
      }
    }
  }

  /**
   * Insert `x` after the last element that is `<=` it. Sorting by inserting
   * the elements in input order this way keeps equal elements in input
   * order: it is a stable sort, as `Itertools::sorted` is.
   */
  function Insert(x: Tag, s: seq<Tag>): (r: seq<Tag>)
    ensures multiset(r) == multiset(s) + multiset{x}
  {
    if s == [] then [x]
    else if Le(s[|s| - 1], x) then s + [x]
    else
      assert s == s[..|s| - 1] + [s[|s| - 1]];
      Insert(x, s[..|s| - 1]) + [s[|s| - 1]]
  }

  /** `Itertools::sorted`: stable ascending sort. */
  function StableSort(ts: seq<Tag>): (r: seq<Tag>)
    ensures multiset(r) == multiset(ts)
  {
    if ts == [] then []
    else
      assert ts == ts[..|ts| - 1] + [ts[|ts| - 1]];
      Insert(ts[|ts| - 1], StableSort(ts[..|ts| - 1]))
  }

  predicate Sorted(s: seq<Tag>) {
    forall i, j :: 0 <= i < j < |s| ==> Le(s[i], s[j])
  }

  /** Appending an element not smaller than any other keeps a sequence sorted. */
  lemma SortedSnoc(s: seq<Tag>, y: Tag)
    requires Sorted(s) && forall i :: 0 <= i < |s| ==> Le(s[i], y)
    ensures Sorted(s + [y])
  {
    forall i, j | 0 <= i < j < |s + [y]| ensures Le((s + [y])[i], (s + [y])[j]) {
      assert (s + [y])[i] == s[i];
    }
  }

  lemma {:induction false} InsertSorted(x: Tag, s: seq<Tag>)
    requires Sorted(s)
    ensures Sorted(Insert(x, s))
  {
    if s == [] {
      assert Insert(x, s) == [x];
    } else {
      var init := s[..|s| - 1];
      var last := s[|s| - 1];
      if Le(last, x) {
        forall i | 0 <= i < |s| ensures Le(s[i], x) {
          if i < |s| - 1 { LeTotalPreorder(s[i], last, x); }
        }
        SortedSnoc(s, x);
      } else {
        assert Sorted(init) by {
          forall i, j | 0 <= i < j < |init| ensures Le(init[i], init[j]) { assert init[i] == s[i] && init[j] == s[j]; }
        }
        InsertSorted(x, init);
        var r := Insert(x, init);
        assert Insert(x, s) == r + [last];
        assert multiset(r) == multiset(init) + multiset{x};
        LeTotalPreorder(last, x, x);
        forall i | 0 <= i < |r| ensures Le(r[i], last) {
          assert r[i] in multiset(r);
          if r[i] != x {
            assert r[i] in multiset(init);
            var k :| 0 <= k < |init| && init[k] == r[i];
            assert s[k] == r[i];
          }
        }
        SortedSnoc(r, last);
      }
    }
  }

  lemma {:induction false} StableSortSorted(ts: seq<Tag>)
    ensures Sorted(StableSort(ts))
  {
    if ts != [] {
      StableSortSorted(ts[..|ts| - 1]);
      InsertSorted(ts[|ts| - 1], StableSort(ts[..|ts| - 1]));
    }
  }

  /** The position of the last element not smaller than any other. */
  function LastMaxIndex(ts: seq<Tag>): (k: nat)
    requires ts != []
    ensures k < |ts|
  {
    if |ts| == 1 then 0
    else
      var k := LastMaxIndex(ts[..|ts| - 1]);
      if Le(ts[k], ts[|ts| - 1]) then |ts| - 1 else k
  }

  /** The chosen element is not smaller than any element, and strictly greater than every later one. */
  lemma {:induction false} LastMaxIndexSpec(ts: seq<Tag>)
    requires ts != []
    ensures forall j :: 0 <= j < |ts| ==> Le(ts[j], ts[LastMaxIndex(ts)])
    ensures forall j :: LastMaxIndex(ts) < j < |ts| ==> !Le(ts[LastMaxIndex(ts)], ts[j])
  {
    if |ts| == 1 {
      LeTotalPreorder(ts[0], ts[0], ts[0]);
    } else {
      var init := ts[..|ts| - 1];
      var x := ts[|ts| - 1];
      var k := LastMaxIndex(init);
      LastMaxIndexSpec(init);
      assert init[k] == ts[k];
      if Le(ts[k], x) {
        assert LastMaxIndex(ts) == |ts| - 1;
        LeTotalPreorder(x, x, x);
        forall j | 0 <= j < |ts| - 1 ensures Le(ts[j], x) {
          assert init[j] == ts[j];
          LeTotalPreorder(ts[j], ts[k], x);
        }
      } else {
        assert LastMaxIndex(ts) == k;
        LeTotalPreorder(ts[k], x, x);
        forall j | 0 <= j < |ts| - 1 ensures Le(ts[j], ts[k]) {
          assert init[j] == ts[j];
        }
        forall j | k < j < |ts| - 1 ensures !Le(ts[k], ts[j]) {
          assert init[j] == ts[j];
        }
      }
    }
  }

  /** Where `Insert` leaves the last element. */
  lemma InsertLast(x: Tag, s: seq<Tag>)
    ensures Insert(x, s) != []
    ensures Insert(x, s)[|Insert(x, s)| - 1] == if s == [] || Le(s[|s| - 1], x) then x else s[|s| - 1]
  {
  }

  /** The last element of the stable sort is the last maximal element of the input. */
  lemma {:induction false} StableSortLast(ts: seq<Tag>)
    requires ts != []
    ensures StableSort(ts) != [] && StableSort(ts)[|StableSort(ts)| - 1] == ts[LastMaxIndex(ts)]
  {
    var x := ts[|ts| - 1];
    var init := ts[..|ts| - 1];
    var sorted := StableSort(init);
    assert StableSort(ts) == Insert(x, sorted);
    InsertLast(x, sorted);
    if |ts| > 1 {
      StableSortLast(init);
      var k := LastMaxIndex(init);
      assert init[k] == ts[k];
      assert sorted[|sorted| - 1] == ts[k];
      assert LastMaxIndex(ts) == if Le(ts[k], x) then |ts| - 1 else k;
    } else {
      assert init == [];
      assert sorted == [];
    }
  }

  function Rev(s: seq<Tag>): (r: seq<Tag>)
    ensures |r| == |s| && forall i :: 0 <= i < |s| ==> r[i] == s[|s| - 1 - i]
  {
    if s == [] then [] else Rev(s[1..]) + [s[0]]
  }

  function NotFound(current: Tag): string {
    "could not find the version " + Display(current) + " nor any higher ones"
  }

  /**
   * The selection of `find_highest_tag`: survivors, `sorted()`, `rev()`,
   * `next()`, and `ok_or_else` on an empty result.
   */
  function SelectHighest(re: Regex, current: Tag, cands: seq<string>): Result<Tag>
    requires AllFit(re, cands)
  {
    var ranked := Rev(StableSort(Survivors(re, current, cands)));
    if ranked == [] then Err(NotFound(current)) else Ok(ranked[0])
  }

  /**
   * The selection fails exactly when no candidate survives, with a message
   * naming the current tag. Otherwise it returns a survivor that is not older
   * than the current tag, not older than any survivor, and, among equal ones,
   * the last in input order.
   */
  lemma SelectHighestSpec(re: Regex, current: Tag, cands: seq<string>)
    requires AllFit(re, cands)
    ensures var survivors := Survivors(re, current, cands);
            && (SelectHighest(re, current, cands).Err? <==> survivors == [])
            && (SelectHighest(re, current, cands).Err? ==> SelectHighest(re, current, cands).error == NotFound(current))
            && (SelectHighest(re, current, cands).Ok? ==>
                  && SelectHighest(re, current, cands).value == survivors[LastMaxIndex(survivors)]
                  && Ge(SelectHighest(re, current, cands).value, current)
                  && (forall t :: t in survivors ==> Le(t, SelectHighest(re, current, cands).value))
                  && exists i :: 0 <= i < |cands| && ParseTag(re, cands[i]) == SelectHighest(re, current, cands))
  {
    var survivors := Survivors(re, current, cands);
    SurvivorsSpec(re, current, cands);
    assert |StableSort(survivors)| == |survivors| by {
      assert |multiset(StableSort(survivors))| == |multiset(survivors)|;
    }
    if survivors != [] {
      StableSortLast(survivors);
      LastMaxIndexSpec(survivors);
      var t := survivors[LastMaxIndex(survivors)];
      assert t in survivors;
    }
  }

  /** The not-found message contains the current tag's display text. */
  lemma NotFoundNamesTag(current: Tag)
    ensures var msg := NotFound(current);
            var n := |"could not find the version "|;
            msg[n..n + |Display(current)|] == Display(current)
  {
  }

  // ------------------------------------------------------------ find_highest_tag

  predicate ValuesFit(parent: Parent, data: string) {
    AllFit(parent.tagPattern, Values(ScanNames(data, 0)))
  }

  /**
   * `find_highest_tag` without the fetch, reading group 1 of each match
   * (the tag name), which is what the code evidently intends.
   */
  function FindHighestTag(parent: Parent, data: string): (r: Result<(Parent, Tag)>)
    requires ValuesFit(parent, data)
    ensures r.Ok? ==> r.value.0 == parent
  {
    match SelectHighest(parent.tagPattern, parent.tag, Values(ScanNames(data, 0)))
    case Ok(t) => Ok((parent, t))
    case Err(e) => Err(e)
  }

  /**
   * On success the parent comes back unchanged with a tag that is a
   * registry name matching the parent's pattern, not older than the
   * current tag, and not older than any other eligible name.
   */
  lemma FindHighestTagSpec(parent: Parent, data: string)
    requires ValuesFit(parent, data)
    ensures var cands := Values(ScanNames(data, 0));
            var r := FindHighestTag(parent, data);
            && (r.Err? <==> Survivors(parent.tagPattern, parent.tag, cands) == [])
            && (r.Err? ==> r.error == NotFound(parent.tag))
            && (r.Ok? ==>
                  && r.value.0 == parent
                  && Ge(r.value.1, parent.tag)
                  && (exists i :: 0 <= i < |cands| && ParseTag(parent.tagPattern, cands[i]) == Ok(r.value.1))
                  && forall i :: 0 <= i < |cands| && IsMatch(parent.tagPattern, cands[i])
                                 && Ge(ParseTag(parent.tagPattern, cands[i]).value, parent.tag)
                                 ==> Le(ParseTag(parent.tagPattern, cands[i]).value, r.value.1))
  {
    var re := parent.tagPattern;
    var cands := Values(ScanNames(data, 0));
    var sel := SelectHighest(re, parent.tag, cands);
    SelectHighestSpec(re, parent.tag, cands);
    SurvivorsSpec(re, parent.tag, cands);
    assert FindHighestTag(parent, data) == if sel.Ok? then Ok((parent, sel.value)) else Err(sel.error);
    if sel.Ok? {
      forall i | 0 <= i < |cands| && IsMatch(re, cands[i]) && Ge(ParseTag(re, cands[i]).value, parent.tag)
        ensures Le(ParseTag(re, cands[i]).value, sel.value)
      {
        assert ParseTag(re, cands[i]).value in Survivors(re, parent.tag, cands);
      }
    }
  }

  predicate WholesFit(parent: Parent, data: string) {
    AllFit(parent.tagPattern, Wholes(data, ScanNames(data, 0)))
  }

  /** `find_highest_tag` as written: the whole match `tag[0]` is tested and parsed. */
  function FindHighestTagAsWritten(parent: Parent, data: string): (r: Result<(Parent, Tag)>)
    requires WholesFit(parent, data)
    ensures r.Ok? ==> r.value.0 == parent
  {
    match SelectHighest(parent.tagPattern, parent.tag, Wholes(data, ScanNames(data, 0)))
    case Ok(t) => Ok((parent, t))
    case Err(e) => Err(e)
  }

  /**
   * As written, no registry answer ever yields a tag: every whole match
   * starts with `"`, which no pattern synthesized from a Docker tag accepts.
   */
  lemma AsWrittenNeverFinds(parent: Parent, data: string)
    requires DockerLits(parent.tagPattern.tokens)
    ensures WholesFit(parent, data)
    ensures FindHighestTagAsWritten(parent, data) == Err(NotFound(parent.tag))
  {
    var ms := ScanNames(data, 0);
    var wholes := Wholes(data, ms);
    ScanNamesMatches(data, 0);
    forall i | 0 <= i < |wholes| ensures !IsMatch(parent.tagPattern, wholes[i]) {
      WholeStartsWithQuote(data, ms[i]);
      QuoteLedNeverMatches(parent.tagPattern, wholes[i]);
    }
    NoMatchNoSurvivors(parent.tagPattern, parent.tag, wholes);
  }

  /** Every whole match starts with the `"` of `"name":`. */
  lemma WholeStartsWithQuote(data: string, m: NameMatch)
    requires m.start <= |data| && NameMatchAt(data, m.start) == Some(m)
    ensures m.start < m.end <= |data| && data[m.start..m.end][0] == '"'
  {
    NameMatchAtSound(data, m.start);
    var n := |NamePrefix|;
    assert data[m.start] == data[m.start..m.start + n][0];
  }

  /** A text starting with `"` is not a Docker tag, so a synthesized pattern rejects it. */
  lemma QuoteLedNeverMatches(re: Regex, s: string)
    requires DockerLits(re.tokens) && |s| > 0 && s[0] == '"'
    ensures !IsMatch(re, s)
  {
    assert !IsDockerChar(s[0]);
    if IsMatch(re, s) {
      MatchOnlyDockerTags(re.tokens, s);
      assert false;
    }
  }

  lemma {:induction false} NoMatchNoSurvivors(re: Regex, current: Tag, cands: seq<string>)
    requires forall i :: 0 <= i < |cands| ==> !IsMatch(re, cands[i])
    ensures AllFit(re, cands) && Survivors(re, current, cands) == []
  {
    if cands != [] {
      assert forall i :: 0 <= i < |cands[1..]| ==> cands[1..][i] == cands[i + 1];
      NoMatchNoSurvivors(re, current, cands[1..]);
    }
  }
}
