/**
 The tag and timestamp handling of `create_ah_ha`: the parser for the
 comma-separated tag list the language model answers with, the choice of
 `generated_tags`, and the default timestamp. The model call itself (the ADK
 event stream and the HTML stripping that feeds it) is a parameter.
 */
module Tagging {
  import opened Wrappers
  import opened Text

  /** A well-formed parsed tag: non-empty, no surrounding whitespace, no upper case. */
  predicate IsCleanTag(t: string) {
    t != [] && IsStripped(t) && NoUpper(t)
  }

  /** `tag.strip().lower()` kept when `tag.strip()` is non-empty, for each piece in order. */
  function CleanPieces(pieces: seq<string>): (tags: seq<string>)
    ensures |tags| <= |pieces|
    ensures forall i :: 0 <= i < |tags| ==> IsCleanTag(tags[i])
    decreases |pieces|
  {
    if pieces == [] then []
    else
      var rest := CleanPieces(pieces[1..]);
      var t := Strip(pieces[0]);
      StripSpec(pieces[0]);
      LowerIsLowercase(t);
      if t != [] then [Lower(t)] + rest else rest
  }

  /** `[tag.strip().lower() for tag in text.split(",") if tag.strip()]`. */
  function ParseTags(text: string): (tags: seq<string>)
    ensures |tags| <= multiset(text)[','] + 1
    ensures forall i :: 0 <= i < |tags| ==> IsCleanTag(tags[i])
  {
    CleanPieces(Split(text, ','))
  }

  /** One piece gives its stripped, lowercased text, or nothing when it is blank. */
  lemma CleanPiecesOfPiece(p: string)
    ensures CleanPieces([p]) == if Strip(p) == [] then [] else [Lower(Strip(p))]
  {
  }

  /** The pieces are cleaned one at a time, so the tags keep the order of their pieces. */
  lemma {:induction false} CleanPiecesAppend(a: seq<string>, b: seq<string>)
    ensures CleanPieces(a + b) == CleanPieces(a) + CleanPieces(b)
    decreases |a|
  {
    if a == [] {
      assert a + b == b;
    } else {
      var ab := a + b;
      assert ab[0] == a[0] && ab[1..] == a[1..] + b;
      CleanPiecesAppend(a[1..], b);
    }
  }

  /** Parsing text with a comma in it: the tags of the part before the comma, then those of
      the rest. With `CleanPiecesOfPiece` this fixes the parse of every text. */
  lemma ParseTagsAtComma(p: string, rest: string)
    requires ',' !in p
    ensures ParseTags(p + "," + rest) == (if Strip(p) == [] then [] else [Lower(Strip(p))]) + ParseTags(rest)
  {
    SplitAfterPiece(p, ',', rest);
    assert p + [','] + rest == p + "," + rest;
    CleanPiecesAppend([p], Split(rest, ','));
    CleanPiecesOfPiece(p);
  }

  /** Text without a comma is a single piece. */
  lemma ParseTagsOfPiece(p: string)
    requires ',' !in p
    ensures ParseTags(p) == if Strip(p) == [] then [] else [Lower(Strip(p))]
  {
    SplitNoSeparator(p, ',');
    CleanPiecesOfPiece(p);
  }

  lemma {:induction false} CleanPiecesOfCleanTags(tags: seq<string>)
    requires forall i :: 0 <= i < |tags| ==> IsCleanTag(tags[i])
    ensures CleanPieces(tags) == tags
    decreases |tags|
  {
    if tags != [] {
      CleanPiecesOfCleanTags(tags[1..]);
      StripStripped(tags[0]);
      LowerIsLowercase(tags[0]);
    }
  }

  /** Joining clean, comma-free tags with commas and parsing the result gives them back. */
  lemma ParseJoinedTags(tags: seq<string>)
    requires |tags| >= 1
    requires forall i :: 0 <= i < |tags| ==> IsCleanTag(tags[i]) && ',' !in tags[i]
    ensures ParseTags(Join(tags, ',')) == tags
  {
    SplitJoin(tags, ',');
    CleanPiecesOfCleanTags(tags);
  }

  /** How the tagging run ended: it threw, or it finished with the final response's text
      (`None` when no final text was captured). */
  datatype TagGeneration = GenerationThrew | GenerationFinished(finalText: Option<string>)

  /**
   `generated_tags`: the parsed tags when the runner, the agent and the
   content are all present and the run produced a non-empty parse; `[]` in
   every other case.
   */
  function GeneratedTags(runnerAvailable: bool, agentAvailable: bool, content: string, generation: TagGeneration): (tags: seq<string>)
    ensures !runnerAvailable || !agentAvailable || content == [] ==> tags == []
    ensures generation.GenerationThrew? || generation == GenerationFinished(None) ==> tags == []
    ensures tags != [] ==>
      && generation.GenerationFinished? && generation.finalText.Some?
      && tags == ParseTags(Strip(generation.finalText.value))
    ensures runnerAvailable && agentAvailable && content != [] && generation.GenerationFinished? && generation.finalText.Some? ==>
      tags == ParseTags(Strip(generation.finalText.value))
    ensures forall i :: 0 <= i < |tags| ==> IsCleanTag(tags[i])
  {
    if runnerAvailable && agentAvailable && content != [] then
      match generation
      case GenerationThrew => []
      case GenerationFinished(None) => []
      case GenerationFinished(Some(text)) =>
        var parsed := ParseTags(Strip(text));
        if parsed != [] then parsed else []
    else []
  }

  /** A joined list of clean tags starts and ends with a tag character, so it is stripped. */
  lemma {:induction false} JoinedCleanTagsStripped(tags: seq<string>)
    requires |tags| >= 1
    requires forall i :: 0 <= i < |tags| ==> IsCleanTag(tags[i])
    ensures Join(tags, ',') != [] && IsStripped(Join(tags, ','))
    decreases |tags|
  {
    assert IsCleanTag(tags[0]);
    if |tags| > 1 {
      JoinedCleanTagsStripped(tags[1..]);
      var rest := Join(tags[1..], ',');
      var joined := tags[0] + [','] + rest;
      assert Join(tags, ',') == joined;
      assert joined[0] == tags[0][0];
      assert joined[|joined| - 1] == rest[|rest| - 1];
    }
  }

  /** When the model answers with clean, comma-free tags separated by commas, those tags are
      exactly what is stored. */
  lemma GeneratedTagsOfCleanAnswer(content: string, tags: seq<string>)
    requires content != [] && |tags| >= 1
    requires forall i :: 0 <= i < |tags| ==> IsCleanTag(tags[i]) && ',' !in tags[i]
    ensures GeneratedTags(true, true, content, GenerationFinished(Some(Join(tags, ',')))) == tags
  {
    JoinedCleanTagsStripped(tags);
    StripStripped(Join(tags, ','));
    ParseJoinedTags(tags);
  }

  /** The snippet record (`AhHaSnippet`); timestamps are abstract instants. */
  datatype AhHaSnippet = AhHaSnippet(
    id: Option<string>, title: string, content: string, permalinkToOrigin: Option<string>,
    notes: Option<string>, contentType: Option<string>, generatedTags: Option<seq<string>>,
    timestamp: Option<int>)

  /**
   The record `create_ah_ha` hands to the database: the timestamp filled in
   only when absent, `generated_tags` always set, every other field as
   received.
   */
  function PrepareSnippet(snippet: AhHaSnippet, runnerAvailable: bool, agentAvailable: bool,
                          generation: TagGeneration, now: int): (r: AhHaSnippet)
    ensures r.timestamp.Some?
    ensures snippet.timestamp.Some? ==> r.timestamp == snippet.timestamp
    ensures snippet.timestamp.None? ==> r.timestamp == Some(now)
    ensures r.generatedTags == Some(GeneratedTags(runnerAvailable, agentAvailable, snippet.content, generation))
    ensures r.(generatedTags := snippet.generatedTags, timestamp := snippet.timestamp) == snippet
  {
    var stamped := if snippet.timestamp.None? then snippet.(timestamp := Some(now)) else snippet;
    stamped.(generatedTags := Some(GeneratedTags(runnerAvailable, agentAvailable, snippet.content, generation)))
  }
}
