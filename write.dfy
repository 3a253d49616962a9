/**
 * Rewriting Dockerfiles with their new tags (`src/dvb/write.rs`): for each
 * (parent, new tag) pair in order, take the Dockerfile's text (from an
 * earlier pair with the same path, else the file as read) and substitute
 * the new tag's display text where the parent's tag pattern matches.
 */
module Write {
  import opened Text
  import opened Pattern
  import opened Data

  /**
   * `Regex::replace_all` with a pattern anchored by `^` and `$` (no
   * multi-line flag): the only possible match is the whole text.
   */
  function ReplaceAll(re: Regex, content: string, rep: string): (r: string)
    ensures r == content || r == rep
    ensures r != content ==> IsMatch(re, content)
    ensures IsMatch(re, content) ==> r == rep
  {
    if IsMatch(re, content) then rep else content
  }

  /** A text that contains anything outside the Docker tag alphabet (a space, a newline) is never rewritten. */
  lemma ReplaceAllKeepsNonTags(re: Regex, content: string, rep: string)
    requires DockerLits(re.tokens) && !IsDockerTag(content)
    ensures ReplaceAll(re, content, rep) == content
  {
    if IsMatch(re, content) {
      MatchOnlyDockerTags(re.tokens, content);
    }
  }

  type Update = (Parent, Tag)

  function PathOf(u: Update): string {
    u.0.dockerfile.path
  }

  /** One iteration's substitution. */
  function Apply(u: Update, content: string): string {
    ReplaceAll(u.0.tagPattern, content, Display(u.1))
  }

  /** The keys of the result, in `IndexMap` order: each path where it first occurs. */
  function Paths(us: seq<Update>): seq<string> {
    if us == [] then []
    else
      var ps := Paths(us[..|us| - 1]);
      var path := PathOf(us[|us| - 1]);
      if path in ps then ps else ps + [path]
  }

  /** The map after processing `us` in order. */
  function Contents(us: seq<Update>): map<string, string> {
    if us == [] then map[]
    else
      var m := Contents(us[..|us| - 1]);
      var u := us[|us| - 1];
      var base := if PathOf(u) in m then m[PathOf(u)] else u.0.dockerfile.content;
      m[PathOf(u) := Apply(u, base)]
  }

  predicate NoDuplicates(s: seq<string>) {
    forall i, j :: 0 <= i < j < |s| ==> s[i] != s[j]
  }

  /** Whether some update concerns `path`. */
  predicate Mentions(us: seq<Update>, path: string) {
    exists i :: 0 <= i < |us| && PathOf(us[i]) == path
  }

  /**
   * The keys are the paths of the updates, each once, and the map and the
   * key order agree.
   */
  lemma {:induction false} PathsSpec(us: seq<Update>)
    ensures NoDuplicates(Paths(us))
    ensures forall p :: p in Paths(us) <==> p in Contents(us)
    ensures forall p :: p in Contents(us) <==> Mentions(us, p)
  {
    if us != [] {
      var init := us[..|us| - 1];
      PathsSpec(init);
      forall p ensures p in Contents(us) <==> Mentions(us, p) {
        if Mentions(init, p) {
          var i :| 0 <= i < |init| && PathOf(init[i]) == p;
          assert PathOf(us[i]) == p;
        }
        if Mentions(us, p) && p != PathOf(us[|us| - 1]) {
          var i :| 0 <= i < |us| && PathOf(us[i]) == p;
          assert PathOf(init[i]) == p;
        }
      }
    }
  }

  /** The text an update would start from when its path has not been seen yet: the first update's Dockerfile. */
  function Seed(us: seq<Update>, path: string): string
    requires Mentions(us, path)
  {
    if PathOf(us[0]) == path then us[0].0.dockerfile.content
    else
      assert Mentions(us[1..], path) by {
        var i :| 0 <= i < |us| && PathOf(us[i]) == path;
        assert PathOf(us[1..][i - 1]) == path;
      }
      Seed(us[1..], path)
  }

  /** Applying, front to back, the updates of `us` that concern `path`. */
  function ApplyAll(us: seq<Update>, path: string, content: string): string {
    if us == [] then content
    else ApplyAll(us[1..], path, if PathOf(us[0]) == path then Apply(us[0], content) else content)
  }

  /** The reference definition: a file's final text is its seed with its updates applied in order. */
  function ForPath(us: seq<Update>, path: string): string
    requires Mentions(us, path)
  {
    ApplyAll(us, path, Seed(us, path))
  }

  lemma {:induction false} ApplyAllSnoc(us: seq<Update>, u: Update, path: string, content: string)
    ensures ApplyAll(us + [u], path, content) ==
            if PathOf(u) == path then Apply(u, ApplyAll(us, path, content)) else ApplyAll(us, path, content)
  {
    if us != [] {
      assert (us + [u])[1..] == us[1..] + [u];
      ApplyAllSnoc(us[1..], u, path, if PathOf(us[0]) == path then Apply(us[0], content) else content);
    }
  }

  /** Updates for other paths leave `content` alone. */
  lemma {:induction false} ApplyAllOther(us: seq<Update>, path: string, content: string)
    requires !Mentions(us, path)
    ensures ApplyAll(us, path, content) == content
  {
    if us != [] {
      assert !Mentions(us[1..], path) by {
        forall i | 0 <= i < |us[1..]| ensures PathOf(us[1..][i]) != path {
          assert us[1..][i] == us[i + 1];
        }
      }
      ApplyAllOther(us[1..], path, content);
    }
  }

  lemma {:induction false} SeedSnoc(us: seq<Update>, u: Update, path: string)
    requires Mentions(us, path)
    ensures Mentions(us + [u], path) && Seed(us + [u], path) == Seed(us, path)
  {
    var i :| 0 <= i < |us| && PathOf(us[i]) == path;
    assert PathOf((us + [u])[i]) == path;
    if PathOf(us[0]) != path {
      assert (us + [u])[1..] == us[1..] + [u];
      assert PathOf(us[1..][i - 1]) == path;
      SeedSnoc(us[1..], u, path);
    }
  }

  lemma {:induction false} SeedFirst(us: seq<Update>, u: Update)
    requires !Mentions(us, PathOf(u))
    ensures Mentions(us + [u], PathOf(u)) && Seed(us + [u], PathOf(u)) == u.0.dockerfile.content
  {
    assert PathOf((us + [u])[|us|]) == PathOf(u);
    if us != [] {
      assert (us + [u])[1..] == us[1..] + [u];
      assert !Mentions(us[1..], PathOf(u)) by {
        forall i | 0 <= i < |us[1..]| ensures PathOf(us[1..][i]) != PathOf(u) {
          assert us[1..][i] == us[i + 1];
        }
      }
      SeedFirst(us[1..], u);
    }
  }

  /**
   * The map built by the loop agrees with the reference: every file's text
   * is its first Dockerfile's content with all its updates applied in order.
   */
  lemma {:induction false} ContentsIsForPath(us: seq<Update>)
    ensures forall p :: p in Contents(us) ==> Mentions(us, p) && Contents(us)[p] == ForPath(us, p)
  {
    PathsSpec(us);
    if us != [] {
      var init := us[..|us| - 1];
      var u := us[|us| - 1];
      assert us == init + [u];
      ContentsIsForPath(init);
      PathsSpec(init);
      forall p | p in Contents(us) ensures Contents(us)[p] == ForPath(us, p) {
        ApplyAllSnoc(init, u, p, Seed(us, p));
        if Mentions(init, p) {
          SeedSnoc(init, u, p);
        } else {
          assert p == PathOf(u);
          SeedFirst(init, u);
          ApplyAllOther(init, p, u.0.dockerfile.content);
        }
      }
    }
  }

  /**
   * As written, a file whose first Dockerfile text is not a bare tag (it
   * has a space, a colon or a line break) comes out unchanged.
   */
  lemma {:induction false} MultiLineFilesUnchanged(us: seq<Update>, path: string)
    requires forall i :: 0 <= i < |us| ==> DockerLits(us[i].0.tagPattern.tokens)
    requires Mentions(us, path) && !IsDockerTag(Seed(us, path))
    ensures ForPath(us, path) == Seed(us, path)
  {
    ApplyAllKeeps(us, path, Seed(us, path));
  }

  lemma {:induction false} ApplyAllKeeps(us: seq<Update>, path: string, content: string)
    requires forall i :: 0 <= i < |us| ==> DockerLits(us[i].0.tagPattern.tokens)
    requires !IsDockerTag(content)
    ensures ApplyAll(us, path, content) == content
  {
    if us != [] {
      ReplaceAllKeepsNonTags(us[0].0.tagPattern, content, Display(us[0].1));
      assert forall i :: 0 <= i < |us[1..]| ==> us[1..][i] == us[i + 1];
      ApplyAllKeeps(us[1..], path, content);
    }
  }

  /**
   * `updated_dockerfiles_content`: the `IndexMap` result is returned as its
   * key order `paths` and its entries `files`.
   */
  method UpdatedDockerfilesContent(latestTags: seq<Update>) returns (paths: seq<string>, files: map<string, string>)
    ensures paths == Paths(latestTags) && files == Contents(latestTags)
    ensures NoDuplicates(paths) && (forall p :: p in paths <==> p in files)
    ensures forall p :: p in files <==> Mentions(latestTags, p)
    ensures forall p :: p in files ==> Mentions(latestTags, p) && files[p] == ForPath(latestTags, p)
  {
    paths := [];
    files := map[];
    var i := 0;
    while i < |latestTags|
      invariant 0 <= i <= |latestTags|
      invariant paths == Paths(latestTags[..i]) && files == Contents(latestTags[..i])
      invariant forall p :: p in paths <==> p in files
    {
      assert latestTags[..i + 1][..i] == latestTags[..i];
      var (parent, newTag) := latestTags[i];
      var path := parent.dockerfile.path;
      if path !in files {
        files := files[path := parent.dockerfile.content];
        paths := paths + [path];
      }
      var q := ReplaceAll(parent.tagPattern, files[path], Display(newTag));
      files := files[path := q];
      i := i + 1;
    }
    assert latestTags[..i] == latestTags;
    PathsSpec(latestTags);
    ContentsIsForPath(latestTags);
  }
}
