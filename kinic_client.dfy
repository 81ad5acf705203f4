/**
 * The Kinic memory client's text handling: the text `insert` stores
 * (`tag: content`, the tag scoped as `principal|tag` when a principal is
 * given) and the loop in `search` that splits each returned text back into
 * tag and content, keeps the caller's own entries and stops at `top_k`.
 * Embeddings and scores are carried as uninterpreted values of a type `F`; the
 * embedding service and the canister calls are parameters.
 */
module KinicClient {
  import opened Wrappers
  import opened Text
  import opened Seqs

  const NoEmbeddingError: string := "Failed to generate embeddings"

  /** `final_tag`: the tag scoped by the principal when one is given. */
  function FinalTag(tag: string, principal: Option<string>): string
  {
    if Given(principal) then principal.value + "|" + tag else tag
  }

  /** `tagged_text`, the text stored beside the embedding. */
  function TaggedText(finalTag: string, content: string): string
  {
    finalTag + ": " + content
  }

  /** The dictionary `insert` returns. */
  datatype InsertResult =
    | InsertFailed(error: string, tag: string)
    | Inserted(memoryId: nat, embeddingDim: nat, tag: string)

  /**
   * `insert`: `embeddings` is what the embedding service returned (empty on
   * failure) and `canister` the `insert` update call on a vector and a text,
   * `Err` carrying the message of the exception it raised.
   */
  function Insert<F>(content: string, tag: string, principal: Option<string>, embeddings: seq<seq<F>>,
                     canister: (seq<F>, string) -> Result<nat, string>): (r: InsertResult)
    ensures embeddings == [] ==> r == InsertFailed(NoEmbeddingError, tag)
    ensures embeddings != [] ==>
      var call := canister(embeddings[0], TaggedText(FinalTag(tag, principal), content));
      && (call.Ok? ==> r == Inserted(call.value, |embeddings[0]|, FinalTag(tag, principal)))
      && (call.Err? ==> r == InsertFailed(call.error, tag))
  {
    if embeddings == [] then InsertFailed(NoEmbeddingError, tag)
    else
      var vector := embeddings[0];
      var finalTag := FinalTag(tag, principal);
      match canister(vector, TaggedText(finalTag, content))
      case Ok(id) => Inserted(id, |vector|, finalTag)
      case Err(e) => InsertFailed(e, tag)
  }

  /** Without an embedding the canister is never called: its behaviour cannot affect the answer. */
  lemma InsertWithoutEmbedding<F>(content: string, tag: string, principal: Option<string>,
                                  c1: (seq<F>, string) -> Result<nat, string>, c2: (seq<F>, string) -> Result<nat, string>)
    ensures Insert(content, tag, principal, [], c1) == Insert(content, tag, principal, [], c2)
    ensures Insert(content, tag, principal, [], c1).InsertFailed?
  {
  }

  /** One formatted search result. */
  datatype Hit<F> = Hit(score: F, text: string, tag: string)

  /** The raw text split at its first ':' into a stripped tag and a stripped text; no ':' gives tag "" and the text as is. */
  function SplitTagged(raw: string): (string, string)
  {
    if ':' in raw then
      var parts := SplitFirst(raw, ':');
      (Strip(parts.0), Strip(parts.1))
    else ("", raw)
  }

  /**
   * One iteration of the formatting loop: `None` when the principal filter
   * skips the result, else the hit, whose tag has the principal scope
   * removed (the part after the first '|').
   */
  function FormatOne<F>(score: F, raw: string, principal: Option<string>): Option<Hit<F>>
  {
    var parts := SplitTagged(raw);
    var tag := parts.0;
    var text := parts.1;
    if Given(principal) then
      if !StartsWith(tag, principal.value + "|") then None
      else if '|' in tag then Some(Hit(score, text, SplitFirst(tag, '|').1))
      else Some(Hit(score, text, tag))
    else Some(Hit(score, text, tag))
  }

  /**
   * Without a principal every result is kept as split; with one, exactly the
   * results whose tag starts with `principal|` are kept, and the tag
   * reported is what follows the first '|'.
   */
  lemma FormatOneFacts<F>(score: F, raw: string, principal: Option<string>)
    ensures !Given(principal) ==> FormatOne(score, raw, principal) == Some(Hit(score, SplitTagged(raw).1, SplitTagged(raw).0))
    ensures Given(principal) ==>
      (FormatOne(score, raw, principal).Some? <==> StartsWith(SplitTagged(raw).0, principal.value + "|"))
    ensures Given(principal) && FormatOne(score, raw, principal).Some? ==>
      '|' in SplitTagged(raw).0 &&
      FormatOne(score, raw, principal) == Some(Hit(score, SplitTagged(raw).1, SplitFirst(SplitTagged(raw).0, '|').1))
  {
    if Given(principal) {
      ScopeBar(SplitTagged(raw).0, principal.value);
    }
  }

  /** A tag that starts with `p|` contains a '|'. */
  lemma ScopeBar(tag: string, p: string)
    ensures StartsWith(tag, p + "|") ==> '|' in tag
  {
    if StartsWith(tag, p + "|") {
      assert tag[|p|] == tag[..|p| + 1][|p|] == (p + "|")[|p|];
    }
  }

  /** Every result the loop would keep, in canister order, without the `top_k` cap. */
  function Formatted<F>(results: seq<(F, string)>, principal: Option<string>): (hs: seq<Hit<F>>)
    ensures |hs| <= |results|
  {
    if results == [] then []
    else
      var last := results[|results| - 1];
      Formatted(results[..|results| - 1], principal) +
        match FormatOne(last.0, last.1, principal)
        case None => []
        case Some(h) => [h]
  }

  /** The hits of a prefix of the results are a prefix of all hits. */
  lemma {:induction false} FormattedPrefix<F>(results: seq<(F, string)>, principal: Option<string>, i: nat)
    requires i <= |results|
    ensures Formatted(results[..i], principal) <= Formatted(results, principal)
    decreases |results|
  {
    if i < |results| {
      var init := results[..|results| - 1];
      assert results[..i] == init[..i];
      FormattedPrefix(init, principal, i);
    } else {
      assert results[..i] == results;
    }
  }

  /** Formatting one more result appends its hit, if it has one. */
  lemma FormattedSnoc<F>(results: seq<(F, string)>, principal: Option<string>, i: nat)
    requires i < |results|
    ensures FormatOne(results[i].0, results[i].1, principal).None? ==>
      Formatted(results[..i + 1], principal) == Formatted(results[..i], principal)
    ensures FormatOne(results[i].0, results[i].1, principal).Some? ==>
      Formatted(results[..i + 1], principal) == Formatted(results[..i], principal) + [FormatOne(results[i].0, results[i].1, principal).value]
  {
    assert results[..i + 1][..i] == results[..i];
  }

  /** Without a principal nothing is filtered: one hit per result, in order. */
  lemma {:induction false} UnfilteredFormatting<F>(results: seq<(F, string)>, principal: Option<string>)
    requires !Given(principal)
    ensures |Formatted(results, principal)| == |results|
    ensures forall i :: 0 <= i < |results| ==> Formatted(results, principal)[i] == Unfiltered(results[i])
  {
    if results != [] {
      var n := |results| - 1;
      var init := results[..n];
      UnfilteredFormatting(init, principal);
      assert FormatOne(results[n].0, results[n].1, principal) == Some(Unfiltered(results[n]));
      var f := Formatted(results, principal);
      assert f == Formatted(init, principal) + [Unfiltered(results[n])];
      forall i | 0 <= i < |results| ensures f[i] == Unfiltered(results[i]) {
        if i < n {
          assert results[i] == init[i];
        }
      }
    }
  }

  /**
   * With a principal, every hit comes from a result whose tag carries that
   * principal's scope, with the same score and text: other users' entries
   * never leak into the answer.
   */
  lemma {:induction false} FilteredOrigin<F>(results: seq<(F, string)>, principal: Option<string>, h: Hit<F>) returns (i: nat)
    requires Given(principal) && h in Formatted(results, principal)
    ensures i < |results| && StartsWith(SplitTagged(results[i].1).0, principal.value + "|")
    ensures h.score == results[i].0 && h.text == SplitTagged(results[i].1).1
  {
    var n := |results| - 1;
    var init := results[..n];
    var last := FormatOne(results[n].0, results[n].1, principal);
    if h in Formatted(init, principal) {
      i := FilteredOrigin(init, principal, h);
      assert results[i] == init[i];
    } else {
      assert last.Some? && h == last.value;
      i := n;
    }
  }

  /** The hit an unfiltered search makes of one result. */
  function Unfiltered<F>(result: (F, string)): Hit<F>
  {
    Hit(result.0, SplitTagged(result.1).1, SplitTagged(result.1).0)
  }

  /** The formatting loop of `search`: append each kept hit, stop once `top_k` are collected. */
  method FormatResults<F>(results: seq<(F, string)>, topK: int, principal: Option<string>) returns (out: seq<Hit<F>>)
    ensures out == PyTake(Formatted(results, principal), LoopLimit(topK))
  {
    out := [];
    var i := 0;
    while i < |results|
      invariant i <= |results| && Formatting(results, principal, i, out)
      invariant |out| < LoopLimit(topK)
    {
      var kept;
      out, kept := FormatNext(results, principal, i, out);
      if kept && |out| >= topK {
        FormatStop(results, principal, i, out, LoopLimit(topK));
        return;
      }
      i := i + 1;
    }
    FormatDone(results, principal, out, LoopLimit(topK));
  }

  /** One pass of the loop body: format result `i` and append its hit, if it has one. */
  method FormatNext<F>(results: seq<(F, string)>, principal: Option<string>, i: nat, out: seq<Hit<F>>)
    returns (out': seq<Hit<F>>, kept: bool)
    requires i < |results| && Formatting(results, principal, i, out)
    ensures Formatting(results, principal, i + 1, out')
    ensures kept ==> |out'| == |out| + 1
    ensures !kept ==> out' == out
  {
    FormatStep(results, principal, i, out);
    var hit := FormatOne(results[i].0, results[i].1, principal);
    kept := hit.Some?;
    out' := if kept then out + [hit.value] else out;
  }

  /** The state of the formatting loop: `out` holds the hits of the first `i` results. */
  ghost predicate Formatting<F>(results: seq<(F, string)>, principal: Option<string>, i: nat, out: seq<Hit<F>>) {
    i <= |results| && out == Formatted(results[..i], principal)
  }

  /** Formatting one more result appends its hit, if it has one. */
  lemma FormatStep<F>(results: seq<(F, string)>, principal: Option<string>, i: nat, out: seq<Hit<F>>)
    requires i < |results| && Formatting(results, principal, i, out)
    ensures FormatOne(results[i].0, results[i].1, principal).None? ==> Formatting(results, principal, i + 1, out)
    ensures FormatOne(results[i].0, results[i].1, principal).Some? ==>
      Formatting(results, principal, i + 1, out + [FormatOne(results[i].0, results[i].1, principal).value])
  {
    FormattedSnoc(results, principal, i);
  }

  /** A loop that stops after result `i` with `n` hits has the first `n` hits overall. */
  lemma FormatStop<F>(results: seq<(F, string)>, principal: Option<string>, i: nat, out: seq<Hit<F>>, n: nat)
    requires i < |results| && Formatting(results, principal, i + 1, out) && |out| == n
    ensures out == PyTake(Formatted(results, principal), n)
  {
    FormattedPrefix(results, principal, i + 1);
    TakePrefix(out, Formatted(results, principal), n);
  }

  /** A loop that reaches the end below the cap has every hit. */
  lemma FormatDone<F>(results: seq<(F, string)>, principal: Option<string>, out: seq<Hit<F>>, n: nat)
    requires Formatting(results, principal, |results|, out) && |out| < n
    ensures out == PyTake(Formatted(results, principal), n)
  {
    TakeAll(results);
  }

  /**
   * `search`: no embedding, or a canister query that raised (`None`),
   * gives no results; otherwise the canister's results are formatted.
   */
  method Search<F>(embeddings: seq<seq<F>>, canister: seq<F> -> Option<seq<(F, string)>>, topK: int,
                   principal: Option<string>) returns (r: seq<Hit<F>>)
    ensures embeddings == [] ==> r == []
    ensures embeddings != [] && canister(embeddings[0]).None? ==> r == []
    ensures embeddings != [] && canister(embeddings[0]).Some? ==>
      r == PyTake(Formatted(canister(embeddings[0]).value, principal), LoopLimit(topK))
  {
    if embeddings == [] {
      return [];
    }
    match canister(embeddings[0]) {
      case None =>
        r := [];
      case Some(results) =>
        r := FormatResults(results, topK, principal);
    }
  }

  /** A stored text without ':' comes back unchanged, with an empty tag. */
  lemma UntaggedText<F>(score: F, raw: string)
    requires ':' !in raw
    ensures FormatOne(score, raw, None) == Some(Hit(score, raw, ""))
  {
  }

  /**
   * Decoding what `insert` stored gives back the caller's tag and content,
   * provided neither the principal nor the tag contains ':', the principal
   * contains no '|', and none of the three has surrounding whitespace.
   */
  lemma TaggedTextRoundTrip<F>(score: F, principal: Option<string>, tag: string, content: string)
    requires ':' !in tag && Trimmed(tag) && Trimmed(content)
    requires Given(principal) ==> ':' !in principal.value && '|' !in principal.value && Trimmed(principal.value)
    ensures FormatOne(score, TaggedText(FinalTag(tag, principal), content), principal) == Some(Hit(score, content, tag))
  {
    var ft := FinalTag(tag, principal);
    if Given(principal) {
      ScopedTag(principal.value, tag);
    }
    SplitTaggedText(ft, content);
  }

  /** The stored text splits back into the final tag and the content. */
  lemma SplitTaggedText(finalTag: string, content: string)
    requires ':' !in finalTag && Trimmed(finalTag) && Trimmed(content)
    ensures SplitTagged(TaggedText(finalTag, content)) == (finalTag, content)
  {
    assert TaggedText(finalTag, content) == finalTag + [':'] + (" " + content);
    SplitFirstAt(finalTag, ':', " " + content);
    StripAfterSpace(content);
  }

  /** A principal-scoped tag has no ':' or surrounding whitespace, starts with its scope and splits back into the tag. */
  lemma ScopedTag(p: string, tag: string)
    requires p != [] && ':' !in tag && Trimmed(tag)
    requires ':' !in p && '|' !in p && Trimmed(p)
    ensures var ft := p + "|" + tag;
      && ':' !in ft && Trimmed(ft) && StartsWith(ft, p + "|")
      && '|' in ft && SplitFirst(ft, '|').1 == tag
  {
    var ft := p + "|" + tag;
    assert ft == p + ['|'] + tag;
    assert ft[..|p + "|"|] == p + "|";
    SplitFirstAt(p, '|', tag);
  }
}
