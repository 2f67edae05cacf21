/**
 * `bert_similarity`: the score of one text against another. The embedding
 * backend is an opaque scoring function; the lexical fallback, the Jaccard
 * index of lower-cased whitespace-split token sets, is modelled exactly,
 * with `real` as exact rationals.
 */
module Scorer {
  import opened Text
  import opened Ratio

  /** The backend chosen once at start-up: the sentence-embedding model, seen
      only through its cosine score, or the lexical fallback used when the
      model could not be loaded. */
  datatype Backend =
    | Lexical
    | Embedding(cosine: (string, string) -> real)

  /** `set(text.lower().split())`. */
  function Tokens(text: string): (ts: set<string>)
    ensures forall w :: w in ts ==> IsWord(w)
  {
    set w | w in Split(Lower(text))
  }

  /** |a ∩ b| / |a ∪ b|, and 1 when both sets are empty. */
  function Jaccard(a: set<string>, b: set<string>): (r: real)
    ensures 0.0 <= r <= 1.0
    ensures r == 1.0 <==> a == b
    ensures r == 0.0 <==> a * b == {} && a + b != {}
  {
    if a == {} && b == {} then 1.0
    else
      OverlapCard(a, b);
      RatioBounds(|a * b|, |a + b|);
      |a * b| as real / |a + b| as real
  }

  /** The intersection is no larger than the union, and as large only when
      the two sets are equal. */
  lemma OverlapCard(a: set<string>, b: set<string>)
    requires a + b != {}
    ensures 0 < |a + b|
    ensures |a * b| <= |a + b|
    ensures |a * b| == |a + b| <==> a == b
    ensures |a * b| == 0 <==> a * b == {}
  {
    SubsetCard(a * b, a + b);
    if a != b {
      var x :| x in a + b && !(x in a && x in b);
      assert x !in a * b;
    } else {
      assert a * b == a + b;
    }
  }

  /** A subset is no larger, and a proper subset is strictly smaller. */
  lemma {:induction false} SubsetCard<T>(small: set<T>, big: set<T>)
    requires small <= big
    ensures |small| <= |big|
    ensures small != big ==> |small| < |big|
    decreases |big|
  {
    if small != big {
      var x :| x in big && x !in small;
      SubsetCard(small, big - {x});
    }
  }

  /** `bert_similarity(text_a, text_b)`. */
  function Similarity(backend: Backend, textA: string, textB: string): (r: real)
    ensures textA == "" && textB == "" ==> r == 1.0
    ensures backend.Lexical? ==> 0.0 <= r <= 1.0
  {
    match backend
    case Lexical =>
      Jaccard(Tokens(textA), Tokens(textB))
    case Embedding(cosine) =>
      if textA == "" && textB == "" then 1.0 else cosine(textA, textB)
  }

  /** A text without any non-whitespace character has no token. */
  lemma TokensEmpty(text: string)
    ensures Tokens(text) == {} <==> forall i :: 0 <= i < |text| ==> IsSpace(text[i])
  {
    SplitEmpty(Lower(text));
    if Split(Lower(text)) != [] {
      assert Split(Lower(text))[0] in Tokens(text);
    }
  }

  /** The lexical score is 1 exactly when the two texts have the same tokens,
      and 0 exactly when they share none while one of them has some. */
  lemma LexicalExtremes(textA: string, textB: string)
    ensures Similarity(Lexical, textA, textB) == 1.0 <==> Tokens(textA) == Tokens(textB)
    ensures Similarity(Lexical, textA, textB) == 0.0 <==>
              Tokens(textA) * Tokens(textB) == {} && Tokens(textA) + Tokens(textB) != {}
  {
  }

  /** Every text has lexical score 1 against itself, even one without tokens. */
  lemma LexicalSelf(text: string)
    ensures Similarity(Lexical, text, text) == 1.0
  {
  }

  /** The score does not depend on the order of its arguments, for the lexical
      backend and for any embedding whose cosine is symmetric. */
  lemma SimilaritySymmetric(backend: Backend, textA: string, textB: string)
    requires backend.Embedding? ==> backend.cosine(textA, textB) == backend.cosine(textB, textA)
    ensures Similarity(backend, textA, textB) == Similarity(backend, textB, textA)
  {
    if backend.Lexical? {
      var a, b := Tokens(textA), Tokens(textB);
      assert a * b == b * a && a + b == b + a;
    }
  }

  /** "the cat sat" against "the dog sat": two shared tokens out of four. */
  lemma LexicalExample()
    ensures Similarity(Lexical, "the cat sat", "the dog sat") == 0.5
  {
    ExampleTokens();
    var a: set<string> := {"the", "cat", "sat"};
    var b: set<string> := {"the", "dog", "sat"};
    ExampleCounts(a, b);
    assert Jaccard(a, b) == 2.0 / 4.0;
  }

  lemma ExampleTokens()
    ensures Tokens("the cat sat") == {"the", "cat", "sat"}
    ensures Tokens("the dog sat") == {"the", "dog", "sat"}
  {
    assert IsWord("the") && IsWord("cat") && IsWord("sat") && IsWord("dog");
    assert "the" + " " + "cat" + " " + "sat" == "the cat sat";
    assert "the" + " " + "dog" + " " + "sat" == "the dog sat";
    ThreeTokens("the", "cat", "sat");
    ThreeTokens("the", "dog", "sat");
  }

  lemma ExampleCounts(a: set<string>, b: set<string>)
    requires a == {"the", "cat", "sat"} && b == {"the", "dog", "sat"}
    ensures |a * b| == 2 && |a + b| == 4
  {
    assert "the"[0] == 't' && "cat"[0] == 'c' && "sat"[0] == 's' && "dog"[0] == 'd';
    assert a * b == {"the", "sat"};
    assert a + b == {"the", "cat", "sat", "dog"};
  }

  /** The tokens of three lower-case words joined by single spaces. */
  lemma ThreeTokens(x: string, y: string, z: string)
    requires IsWord(x) && IsWord(y) && IsWord(z)
    requires forall i :: 0 <= i < |x + " " + y + " " + z| ==> !IsUpper((x + " " + y + " " + z)[i])
    ensures Tokens(x + " " + y + " " + z) == {x, y, z}
  {
    var text := x + " " + y + " " + z;
    LowerOfLower(text);
    assert Join([x, y, z], " ") == text by {
      assert Join([x, y, z][1..], " ") == y + " " + z;
    }
    SplitJoin([x, y, z]);
  }

  /** The tokens ignore case: a text and its lower-cased form have the same tokens. */
  lemma TokensIgnoreCase(text: string)
    ensures Tokens(Lower(text)) == Tokens(text)
  {
    LowerIdempotent(text);
  }

  /** So two texts equal up to case score 1 under the lexical fallback. */
  lemma LexicalIgnoresCase(textA: string, textB: string)
    requires Lower(textA) == Lower(textB)
    ensures Similarity(Lexical, textA, textB) == 1.0
  {
    TokensIgnoreCase(textA);
    TokensIgnoreCase(textB);
  }

  /** A whitespace character separates tokens: the tokens of a text cut at one
      are the tokens of the two sides. */
  lemma TokensAtSpace(a: string, c: char, b: string)
    requires IsSpace(c)
    ensures Tokens(a + [c] + b) == Tokens(a) + Tokens(b)
  {
    LowerConcat(a + [c], b);
    LowerConcat(a, [c]);
    assert Lower([c]) == [c];
    SplitAtSpace(Lower(a), c, Lower(b));
  }

  /** Lower-casing leaves a text without capitals unchanged. */
  lemma LowerOfLower(text: string)
    requires forall i :: 0 <= i < |text| ==> !IsUpper(text[i])
    ensures Lower(text) == text
  {
  }
}
