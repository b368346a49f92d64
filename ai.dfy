/** The `/respond` handler of the reply service: the API-key guard, the
    keyword classifier that labels the model's reply, and the envelope it
    returns. The completion call itself is a parameter. */
module Ai {
  import opened Http
  import opened Text

  /** The three labels the classifier can give a reply. */
  datatype Label = Recipe | Suggestion | PlainText {
    /** The label as it appears in the envelope's `type` field. */
    function Name(): string {
      match this
      case Recipe => "recipe"
      case Suggestion => "suggestion"
      case PlainText => "text"
    }
  }

  /** Keywords of the first category; checked before all others. */
  const RecipeKeywords: seq<string> := ["ingredient", "cook", "recipe"]

  /** Keywords of the second category. */
  const SuggestionKeywords: seq<string> := ["suggest", "recommend"]

  /** Some word of `words` occurs in `text`. */
  ghost predicate Mentions(words: seq<string>, text: string) {
    exists k :: 0 <= k < |words| && Occurs(words[k], text)
  }

  /** `any(word in text for word in words)`. */
  function AnyIn(words: seq<string>, text: string): (r: bool)
    ensures r <==> Mentions(words, text)
  {
    if words == [] then false
    else
      var r := Contains(text, words[0]) || AnyIn(words[1..], text);
      assert r <==> Mentions(words, text) by {
        if r && !Contains(text, words[0]) {
          var k :| 0 <= k < |words[1..]| && Occurs(words[1..][k], text);
          assert Occurs(words[k + 1], text);
        }
        if k :| 0 <= k < |words| && Occurs(words[k], text) {
          if k > 0 {
            assert Occurs(words[1..][k - 1], text);
          }
        }
      }
      r
  }

  /** The label of a reply: "recipe" when a recipe keyword occurs in the
      lower-cased reply, otherwise "suggestion" when a suggestion keyword
      occurs, otherwise "text". */
  function Classify(reply: string): (r: Label)
    ensures r == Recipe <==> Mentions(RecipeKeywords, Lower(reply))
    ensures r == Suggestion <==>
      !Mentions(RecipeKeywords, Lower(reply)) && Mentions(SuggestionKeywords, Lower(reply))
    ensures r == PlainText <==>
      !Mentions(RecipeKeywords, Lower(reply)) && !Mentions(SuggestionKeywords, Lower(reply))
  {
    var lowered := Lower(reply);
    if AnyIn(RecipeKeywords, lowered) then Recipe
    else if AnyIn(SuggestionKeywords, lowered) then Suggestion
    else PlainText
  }

  /** A recipe keyword decides the label whatever else the reply says. */
  lemma RecipeWins(reply: string, k: nat)
    requires k < |RecipeKeywords|
    requires Occurs(RecipeKeywords[k], Lower(reply))
    ensures Classify(reply) == Recipe
  {
  }

  /** The label is spelled as one of the three names. */
  lemma LabelNames(reply: string)
    ensures Classify(reply).Name() in {"recipe", "suggestion", "text"}
  {
  }

  /** Classification ignores ASCII case. */
  lemma ClassifyIgnoresCase(reply: string)
    ensures Classify(Lower(reply)) == Classify(reply)
  {
    LowerIdempotent(reply);
  }

  /** A word holding a letter the text lacks does not occur in it. */
  lemma MissingLetter(w: string, text: string, c: char)
    requires c in w && c !in text
    ensures !Occurs(w, text)
  {
  }

  /** Matching is by substring: "Cooking" holds the recipe keyword "cook". */
  lemma CookingIsRecipe(reply: string)
    requires reply == "Cooking"
    ensures Classify(reply) == Recipe
  {
    var lowered := Lower(reply);
    assert lowered[0..4] == "cook";
    assert OccursAt(RecipeKeywords[1], lowered, 0);
  }

  /** Matching is by substring: "recommendation" holds the suggestion
      keyword "recommend" and none of the recipe keywords. */
  lemma RecommendationIsSuggestion(reply: string)
    requires reply == "recommendation"
    ensures Classify(reply) == Suggestion
  {
    LowerOfLowerCase(reply);
    MissingLetter(RecipeKeywords[0], reply, 'g');
    MissingLetter(RecipeKeywords[1], reply, 'k');
    MissingLetter(RecipeKeywords[2], reply, 'p');
    assert reply[0..9] == "recommend";
    assert OccursAt(SuggestionKeywords[1], reply, 0);
  }

  /** No keyword contains whitespace. */
  lemma KeywordsHaveNoSpace(words: seq<string>, k: nat)
    requires words == RecipeKeywords || words == SuggestionKeywords
    requires k < |words|
    ensures forall i :: 0 <= i < |words[k]| ==> !IsSpace(words[k][i])
  {
  }

  /** Surrounding whitespace has no influence on a keyword list's test. */
  lemma MentionsLowerStrip(words: seq<string>, reply: string)
    requires words == RecipeKeywords || words == SuggestionKeywords
    ensures Mentions(words, Lower(Strip(reply))) <==> Mentions(words, Lower(reply))
  {
    forall k | 0 <= k < |words|
      ensures Occurs(words[k], Lower(Strip(reply))) <==> Occurs(words[k], Lower(reply))
    {
      KeywordsHaveNoSpace(words, k);
      OccursLowerStrip(words[k], reply);
    }
  }

  /** The stripped reply gets the label of the raw reply. */
  lemma ClassifyStrip(reply: string)
    ensures Classify(Strip(reply)) == Classify(reply)
  {
    MentionsLowerStrip(RecipeKeywords, reply);
    MentionsLowerStrip(SuggestionKeywords, reply);
  }

  /** The JSON envelope, without its clock-derived fields. */
  datatype Envelope = Envelope(responseType: string, content: string)

  /** The failure raised when the API key is unset or empty. */
  const KeyNotConfigured := HttpException(500, "OpenAI API key not configured", map[])

  /** The `/respond` handler. `apiKey` is the `OPENAI_API_KEY` environment
      variable; `complete` is the completion service, mapping the query to
      the model's raw reply. */
  function Respond(apiKey: Option<string>, query: string, complete: string -> string): (r: Result<Envelope>)
    ensures r.Err? <==> apiKey == None || apiKey == Some("")
    ensures r.Err? ==> r.error == KeyNotConfigured
    ensures r.Ok? ==> r.value.content == Strip(complete(query))
    ensures r.Ok? ==> r.value.responseType == Classify(complete(query)).Name()
    ensures r.Ok? && r.value.content != [] ==>
      !IsSpace(r.value.content[0]) && !IsSpace(r.value.content[|r.value.content| - 1])
  {
    if apiKey == None || apiKey == Some("") then
      Err(KeyNotConfigured)
    else
      var text := Strip(complete(query));
      ClassifyStrip(complete(query));
      Ok(Envelope(Classify(text).Name(), text))
  }

  /** Without a key the handler's outcome does not depend on the
      completion service: it fails before calling it. */
  lemma KeyCheckedBeforeCall(apiKey: Option<string>, query: string, complete1: string -> string, complete2: string -> string)
    requires apiKey == None || apiKey == Some("")
    ensures Respond(apiKey, query, complete1) == Respond(apiKey, query, complete2) == Err(KeyNotConfigured)
  {
  }
}
