/**
 * Matching one link target against the title pattern `^/title/(\w+)` of
 * MovieScraper.getMovies and cutting the identifier out of the match.
 *
 * The regular expression is written out as string functions: the anchored
 * literal `/title/`, then the greedy run `\w+`, where Java's `\w` (without
 * the Unicode flag) is exactly `[A-Za-z0-9_]`. The identifier is then taken,
 * as the source does, as everything after the last `/` of the matched text.
 */
module TitleLinks {
  import opened Wrappers

  /** The literal that the pattern anchors at the start of the link target. */
  const TitlePrefix: string := "/title/"

  /** Java's `\w`: ASCII letters, digits and the underscore. */
  predicate IsWordChar(c: char) {
    ('a' <= c <= 'z') || ('A' <= c <= 'Z') || ('0' <= c <= '9') || c == '_'
  }

  predicate AllWordChars(s: string) {
    forall i :: 0 <= i < |s| ==> IsWordChar(s[i])
  }

  /** How many characters the greedy `\w+` consumes at the start of `s`: all word characters up to the first other one. */
  function WordRun(s: string): (n: nat)
    ensures n <= |s|
    ensures forall i :: 0 <= i < n ==> IsWordChar(s[i])
    ensures n < |s| ==> !IsWordChar(s[n])
  {
    if s == [] || !IsWordChar(s[0]) then 0 else 1 + WordRun(s[1..])
  }

  /**
   * The anchored pattern matches: `/title/` and at least one word character.
   * So a matching target starts with `/`, and `/title/` is not followed by
   * another `/`.
   */
  predicate IsTitleLink(href: string)
    ensures IsTitleLink(href) ==> |href| > |TitlePrefix| && href[0] == '/' && href[|TitlePrefix|] != '/'
  {
    |href| > |TitlePrefix| && href[..|TitlePrefix|] == TitlePrefix && IsWordChar(href[|TitlePrefix|])
  }

  /** Where the greedy match of `^/title/(\w+)` ends in a target that matches. */
  function MatchEnd(href: string): (e: nat)
    requires IsTitleLink(href)
    ensures |TitlePrefix| < e <= |href|
  {
    |TitlePrefix| + WordRun(href[|TitlePrefix|..])
  }

  /** `matcher.find()` followed by `matcher.group()`: the whole matched text, if any. */
  function FindTitle(href: string): (r: Option<string>)
    ensures r.Some? <==> IsTitleLink(href)
    ensures r.Some? ==> r.value == href[..MatchEnd(href)]
  {
    if IsTitleLink(href) then Some(href[..MatchEnd(href)]) else None
  }

  /** Java's `String.lastIndexOf(char)`: the last position of `c`, or -1. */
  function LastIndexOf(s: string, c: char): (k: int)
    ensures -1 <= k < |s|
    ensures k == -1 ==> c !in s
    ensures k >= 0 ==> s[k] == c && forall j :: k < j < |s| ==> s[j] != c
  {
    if s == [] then -1
    else if s[|s| - 1] == c then |s| - 1
    else
      assert forall j :: 0 <= j < |s| - 1 ==> s[..|s| - 1][j] == s[j];
      LastIndexOf(s[..|s| - 1], c)
  }

  /**
   * The identifier a link target yields, if any: the text after the last `/`
   * of the matched group. A target yields one exactly when the pattern
   * matches, and it is then the non-empty word run right after `/title/`.
   */
  function TitleId(href: string): (r: Option<string>)
    ensures r.Some? <==> IsTitleLink(href)
    ensures r.Some? ==> r.value != [] && r.value == href[|TitlePrefix|..MatchEnd(href)]
  {
    match FindTitle(href)
    case None => None
    case Some(group) =>
      var p := |TitlePrefix|;
      assert group[..p] == TitlePrefix;
      assert forall j :: p <= j < |group| ==> href[p..][j - p] == group[j];
      assert forall j :: p <= j < |group| ==> IsWordChar(group[j]) && group[j] != '/';
      assert group[p - 1] == '/';
      var k := LastIndexOf(group, '/');
      assert k == p - 1;
      Some(group[k + 1..])
  }

  /**
   * The identifier is the longest word run after `/title/`: only word
   * characters (so no `/`, `?`, `.` or `&`), and not followed by another one.
   */
  lemma {:induction false} TitleIdIsMaximalRun(href: string)
    requires IsTitleLink(href)
    ensures AllWordChars(TitleId(href).value)
    ensures '/' !in TitleId(href).value && '?' !in TitleId(href).value && '.' !in TitleId(href).value
    ensures '&' !in TitleId(href).value
    ensures href[..MatchEnd(href)] == TitlePrefix + TitleId(href).value
    ensures MatchEnd(href) < |href| ==> !IsWordChar(href[MatchEnd(href)])
  {
  }

  /**
   * The converse of TitleId: a target written as `/title/`, a non-empty
   * word run, then anything that does not continue the run, yields exactly
   * that run.
   */
  lemma {:induction false} TitleIdOfLink(id: string, rest: string)
    requires id != [] && AllWordChars(id)
    requires rest == [] || !IsWordChar(rest[0])
    ensures TitleId(TitlePrefix + id + rest) == Some(id)
  {
    var href := TitlePrefix + id + rest;
    var p := |TitlePrefix|;
    assert href[..p] == TitlePrefix;
    assert href[p..] == id + rest;
    WordRunOf(id, rest);
    assert href[p..p + |id|] == id;
  }

  /** A target that is `/title/` followed by a word run and nothing else yields that run. */
  lemma {:induction false} TitleIdOfBareLink(id: string)
    requires id != [] && AllWordChars(id)
    ensures TitleId(TitlePrefix + id) == Some(id)
  {
    TitleIdOfLink(id, "");
    assert TitlePrefix + id + "" == TitlePrefix + id;
  }

  /** The greedy run stops exactly where the word characters stop. */
  lemma {:induction false} WordRunOf(id: string, rest: string)
    requires AllWordChars(id)
    requires rest == [] || !IsWordChar(rest[0])
    ensures WordRun(id + rest) == |id|
  {
    if id != [] {
      assert (id + rest)[1..] == id[1..] + rest;
      WordRunOf(id[1..], rest);
    } else {
      assert id + rest == rest;
    }
  }

  /** Absolute URLs and an empty segment after `/title/` yield nothing. */
  lemma {:induction false} NoTitleIdWithoutPrefix(href: string)
    requires href == [] || href[0] != '/' || (|href| > |TitlePrefix| && href[|TitlePrefix|] == '/')
    ensures TitleId(href) == None
  {
  }
}
