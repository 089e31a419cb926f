/**
 * The identifier-extraction loop of MovieScraper.getMovies: walk the link
 * targets in document order, keep those that match the title pattern, and
 * append each identifier unless it equals the last identifier matched.
 *
 * ExtractedIds is the reference definition (match every target, keep the
 * matches, collapse runs of equal neighbours); ExtractIds is the loop with
 * its mutable `lastFoundId`, proved equal to it.
 */
module Extraction {
  import opened Wrappers
  import opened TitleLinks
  import opened Runs

  /** The identifier of one target as a sequence of zero or one entries. */
  function Ids(o: Option<string>): seq<string> {
    match o case Some(id) => [id] case None => []
  }

  /** The identifiers of the matching targets, in document order, repeats included. */
  function MatchedIds(hrefs: seq<string>): (ms: seq<string>)
    ensures |ms| <= |hrefs|
  {
    if hrefs == [] then []
    else
      MatchedIds(hrefs[..|hrefs| - 1]) + Ids(TitleId(hrefs[|hrefs| - 1]))
  }

  /**
   * What the extraction loop produces, stated without the loop: never more
   * identifiers than links, and never two equal neighbours.
   */
  function ExtractedIds(hrefs: seq<string>): (ids: seq<string>)
    ensures |ids| <= |hrefs|
    ensures NoAdjacentRepeats(ids)
  {
    CollapseNoAdjacentRepeats(MatchedIds(hrefs));
    CollapseRuns(MatchedIds(hrefs))
  }

  /** The last matched identifier, or `""` before any match: the value of `lastFoundId`. */
  function LastOr(ms: seq<string>, default: string): string {
    if ms == [] then default else ms[|ms| - 1]
  }

  /**
   * The loop itself. `lastFoundId` starts as `""` and changes only when a
   * target matches, so links that do not match never separate two equal
   * identifiers; the identifier is appended when it differs from
   * `lastFoundId`.
   */
  method ExtractIds(hrefs: seq<string>) returns (ids: seq<string>)
    ensures ids == ExtractedIds(hrefs)
  {
    var lastFoundId := "";
    ids := [];
    for i := 0 to |hrefs|
      invariant ids == CollapseRuns(MatchedIds(hrefs[..i]))
      invariant lastFoundId == LastOr(MatchedIds(hrefs[..i]), "")
    {
      MatchedIdsStep(hrefs, i);
      var found := TitleId(hrefs[i]);
      if found.Some? {
        var imdbId := found.value;
        assert MatchedIds(hrefs[..i + 1]) == MatchedIds(hrefs[..i]) + [imdbId];
        CollapseStep(MatchedIds(hrefs[..i]), imdbId);
        assert LastOr(MatchedIds(hrefs[..i + 1]), "") == imdbId;
        if lastFoundId != imdbId {
          ids := ids + [imdbId];
        }
        lastFoundId := imdbId;
      } else {
        assert MatchedIds(hrefs[..i + 1]) == MatchedIds(hrefs[..i]);
      }
    }
    assert hrefs[..|hrefs|] == hrefs;
  }

  /** Reading one more link adds its identifier, if any, to MatchedIds. */
  lemma {:induction false} MatchedIdsStep(hrefs: seq<string>, i: nat)
    requires i < |hrefs|
    ensures MatchedIds(hrefs[..i + 1]) == MatchedIds(hrefs[..i]) + Ids(TitleId(hrefs[i]))
  {
    assert hrefs[..i + 1][..i] == hrefs[..i];
  }

  /**
   * Comparing with the last matched identifier, defaulting to `""`, decides
   * the same as CollapseRuns, because identifiers are never empty.
   */
  lemma {:induction false} CollapseStep(before: seq<string>, id: string)
    requires id != []
    ensures CollapseRuns(before + [id])
            == if LastOr(before, "") != id then CollapseRuns(before) + [id] else CollapseRuns(before)
  {
  }

  /** Every kept identifier really is the identifier of some link. */
  lemma {:induction false} MatchedIdsFromLinks(hrefs: seq<string>, k: nat)
    requires k < |MatchedIds(hrefs)|
    ensures exists j :: 0 <= j < |hrefs| && TitleId(hrefs[j]) == Some(MatchedIds(hrefs)[k])
  {
    var init := hrefs[..|hrefs| - 1];
    if k < |MatchedIds(init)| {
      MatchedIdsFromLinks(init, k);
      var j :| 0 <= j < |init| && TitleId(init[j]) == Some(MatchedIds(init)[k]);
      assert hrefs[j] == init[j];
    } else {
      assert TitleId(hrefs[|hrefs| - 1]) == Some(MatchedIds(hrefs)[k]);
    }
  }

  /** Conversely, a matching link contributes its identifier to MatchedIds. */
  lemma {:induction false} MatchedIdsComplete(hrefs: seq<string>, j: nat)
    requires j < |hrefs| && TitleId(hrefs[j]).Some?
    ensures TitleId(hrefs[j]).value in MatchedIds(hrefs)
  {
    var init := hrefs[..|hrefs| - 1];
    if j < |init| {
      MatchedIdsComplete(init, j);
      assert init[j] == hrefs[j];
    }
  }

  /**
   * What the extracted list is: only identifiers of matching links, never
   * two equal neighbours, no more entries than links, and every identifier
   * that some link yields appears in it.
   */
  lemma {:induction false} ExtractedIdsProperties(hrefs: seq<string>)
    ensures |ExtractedIds(hrefs)| <= |hrefs|
    ensures NoAdjacentRepeats(ExtractedIds(hrefs))
    ensures forall id :: id in ExtractedIds(hrefs) <==> exists j :: 0 <= j < |hrefs| && TitleId(hrefs[j]) == Some(id)
  {
    var ms := MatchedIds(hrefs);
    CollapseNoAdjacentRepeats(ms);
    CollapseSameElements(ms);
    forall id | id in ExtractedIds(hrefs)
      ensures exists j :: 0 <= j < |hrefs| && TitleId(hrefs[j]) == Some(id)
    {
      var k :| 0 <= k < |ms| && ms[k] == id;
      MatchedIdsFromLinks(hrefs, k);
    }
    forall id | exists j :: 0 <= j < |hrefs| && TitleId(hrefs[j]) == Some(id)
      ensures id in ExtractedIds(hrefs)
    {
      var j :| 0 <= j < |hrefs| && TitleId(hrefs[j]) == Some(id);
      MatchedIdsComplete(hrefs, j);
    }
  }

  /** Every extracted identifier is a non-empty run of word characters, so it holds no `&`. */
  lemma {:induction false} ExtractedIdsAreWords(hrefs: seq<string>)
    ensures forall id :: id in ExtractedIds(hrefs) ==> id != [] && AllWordChars(id) && '&' !in id
  {
    ExtractedIdsProperties(hrefs);
    forall id | id in ExtractedIds(hrefs) ensures id != [] && AllWordChars(id) && '&' !in id {
      var j :| 0 <= j < |hrefs| && TitleId(hrefs[j]) == Some(id);
      TitleIdIsMaximalRun(hrefs[j]);
    }
  }

  /**
   * The first matching link is always kept: `lastFoundId` starts as `""` and
   * identifiers are never empty.
   */
  lemma {:induction false} FirstMatchKept(hrefs: seq<string>)
    requires MatchedIds(hrefs) != []
    ensures ExtractedIds(hrefs) != [] && ExtractedIds(hrefs)[0] == MatchedIds(hrefs)[0]
  {
    CollapseKeepsFirst(MatchedIds(hrefs));
  }

  /** The matched identifiers are recovered from the list by repeating each entry its run length. */
  lemma {:induction false} ExtractedIdsRunLengths(hrefs: seq<string>)
    ensures Expand(ExtractedIds(hrefs), RunLengths(MatchedIds(hrefs))) == MatchedIds(hrefs)
  {
    ExpandRunLengths(MatchedIds(hrefs));
  }

  /** Two equal matches in a row become one entry. */
  lemma {:induction false} AdjacentRepeatCollapsed(a: string, b: string)
    requires a != [] && AllWordChars(a) && b != [] && AllWordChars(b) && a != b
    ensures ExtractedIds([TitlePrefix + a, TitlePrefix + a, TitlePrefix + b]) == [a, b]
  {
    var hs := [TitlePrefix + a, TitlePrefix + a, TitlePrefix + b];
    TitleIdOfBareLink(a);
    TitleIdOfBareLink(b);
    assert Ids(TitleId(hs[0])) == [a] && Ids(TitleId(hs[1])) == [a] && Ids(TitleId(hs[2])) == [b];
    ExtractedIdsOfThree(hs, [a], [a], [b]);
    assert [a] + [a] + [b] == [a, a, b];
    assert CollapseRuns([a, a, b]) == [a, b] by {
      CollapseOfThree(a, a, b);
      assert [a] + [] + [b] == [a, b];
    }
  }

  /** A link that does not match does not separate two equal identifiers. */
  lemma {:induction false} NonMatchingLinkDoesNotSeparate(a: string, other: string)
    requires a != [] && AllWordChars(a) && TitleId(other) == None
    ensures ExtractedIds([TitlePrefix + a, other, TitlePrefix + a]) == [a]
  {
    TitleIdOfBareLink(a);
    ExtractedIdsOfThree([TitlePrefix + a, other, TitlePrefix + a], [a], [], [a]);
    assert [a] + [] + [a] == [a, a];
    assert CollapseRuns([a, a]) == [a] by {
      CollapseSnoc([], a);
      assert [] + [a] == [a];
      CollapseSnoc([a], a);
      assert [a] + [a] == [a, a];
    }
  }

  /** Repeats that are not neighbours are kept: there is no global de-duplication. */
  lemma {:induction false} NonAdjacentRepeatKept(a: string, b: string)
    requires a != [] && AllWordChars(a) && b != [] && AllWordChars(b) && a != b
    ensures ExtractedIds([TitlePrefix + a, TitlePrefix + b, TitlePrefix + a]) == [a, b, a]
  {
    var hs := [TitlePrefix + a, TitlePrefix + b, TitlePrefix + a];
    TitleIdOfBareLink(a);
    TitleIdOfBareLink(b);
    assert Ids(TitleId(hs[0])) == [a] && Ids(TitleId(hs[1])) == [b] && Ids(TitleId(hs[2])) == [a];
    ExtractedIdsOfThree(hs, [a], [b], [a]);
    assert [a] + [b] + [a] == [a, b, a];
    assert CollapseRuns([a, b, a]) == [a, b, a] by {
      CollapseOfThree(a, b, a);
      assert [a] + [b] + [a] == [a, b, a];
    }
  }

  /** ExtractedIds of three links, from what each link yields. */
  lemma {:induction false} ExtractedIdsOfThree(hs: seq<string>, i0: seq<string>, i1: seq<string>, i2: seq<string>)
    requires |hs| == 3
    requires Ids(TitleId(hs[0])) == i0 && Ids(TitleId(hs[1])) == i1 && Ids(TitleId(hs[2])) == i2
    ensures ExtractedIds(hs) == CollapseRuns(i0 + i1 + i2)
  {
    MatchedIdsOfThree(hs);
  }

  /** MatchedIds of three links, one link at a time. */
  lemma {:induction false} MatchedIdsOfThree(hs: seq<string>)
    requires |hs| == 3
    ensures MatchedIds(hs) == Ids(TitleId(hs[0])) + Ids(TitleId(hs[1])) + Ids(TitleId(hs[2]))
  {
    var i0, i1, i2 := Ids(TitleId(hs[0])), Ids(TitleId(hs[1])), Ids(TitleId(hs[2]));
    calc {
      MatchedIds(hs);
      { assert hs[..3] == hs; }
      MatchedIds(hs[..3]);
      { MatchedIdsStep(hs, 2); }
      MatchedIds(hs[..2]) + i2;
      { MatchedIdsStep(hs, 1); }
      MatchedIds(hs[..1]) + i1 + i2;
      { MatchedIdsStep(hs, 0); assert hs[..0] == []; }
      i0 + i1 + i2;
    }
  }
}
