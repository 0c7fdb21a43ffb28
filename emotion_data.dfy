/**
 * Emotion scoring of a day's tweets against the NRC word-emotion lexicon
 * (emotion_data.py): loading the lexicon from its rows, tokenising tweets, folding a
 * day's tokens into a ten-emotion vector, and keying each day's vector by its date.
 */
module EmotionData {
  import opened Wrappers
  import opened Text
  import opened Dicts
  import opened Calendar
  import TweetData

  // ---------------------------------------------------------------------------
  // Tokenising: clean_text
  // ---------------------------------------------------------------------------

  /** The letters and spaces of the text, in order; every other character is dropped. */
  function KeepLetters(text: string): string
  {
    if text == [] then []
    else (if IsAlpha(text[0]) || text[0] == ' ' then [text[0]] else []) + KeepLetters(text[1..])
  }

  /**
   * `str.split()` on a string whose only whitespace is the space: the maximal runs of
   * non-space characters, in order. `word` holds the characters of the run being read.
   */
  function SplitWords(s: string, word: string): seq<string>
  {
    if s == [] then (if word == [] then [] else [word])
    else if s[0] == ' ' then (if word == [] then [] else [word]) + SplitWords(s[1..], [])
    else SplitWords(s[1..], word + [s[0]])
  }

  /** `clean_text`: the letters-only words of a tweet. */
  function CleanText(text: string): seq<string>
  {
    SplitWords(KeepLetters(text), [])
  }

  /** The letters of `text`, in order. */
  function Letters(text: string): string
  {
    if text == [] then []
    else (if IsAlpha(text[0]) then [text[0]] else []) + Letters(text[1..])
  }

  function RemoveSpaces(s: string): string
  {
    if s == [] then []
    else (if s[0] == ' ' then [] else [s[0]]) + RemoveSpaces(s[1..])
  }

  predicate AllAlpha(s: string) {
    forall k | 0 <= k < |s| :: IsAlpha(s[k])
  }

  predicate LettersAndSpaces(s: string) {
    forall k | 0 <= k < |s| :: IsAlpha(s[k]) || s[k] == ' '
  }

  /** Each token is a non-empty string of letters. */
  predicate ValidTokens(tokens: seq<string>) {
    forall i | 0 <= i < |tokens| :: |tokens[i]| > 0 && AllAlpha(tokens[i])
  }

  lemma {:induction false} KeepLettersFacts(text: string)
    ensures LettersAndSpaces(KeepLetters(text))
    ensures RemoveSpaces(KeepLetters(text)) == Letters(text)
  {
    if text != [] {
      KeepLettersFacts(text[1..]);
      var head := if IsAlpha(text[0]) || text[0] == ' ' then [text[0]] else [];
      RemoveSpacesAppend(head, KeepLetters(text[1..]));
    }
  }

  lemma {:induction false} RemoveSpacesAppend(a: string, b: string)
    ensures RemoveSpaces(a + b) == RemoveSpaces(a) + RemoveSpaces(b)
  {
    if a != [] {
      assert (a + b)[1..] == a[1..] + b;
      RemoveSpacesAppend(a[1..], b);
    } else {
      assert a + b == b;
    }
  }

  lemma {:induction false} SplitWordsFacts(s: string, word: string)
    requires LettersAndSpaces(s) && AllAlpha(word)
    ensures ValidTokens(SplitWords(s, word))
    ensures Concat(SplitWords(s, word)) == word + RemoveSpaces(s)
    decreases |s|
  {
    if s == [] {
      assert word + RemoveSpaces(s) == word;
    } else {
      assert LettersAndSpaces(s[1..]) by {
        assert forall k | 0 <= k < |s[1..]| :: s[1..][k] == s[k + 1];
      }
      if s[0] == ' ' {
        SplitWordsFacts(s[1..], []);
        var head: seq<string> := if word == [] then [] else [word];
        assert SplitWords(s, word) == head + SplitWords(s[1..], []);
        assert RemoveSpaces(s) == RemoveSpaces(s[1..]);
        EmitWord(word, SplitWords(s[1..], []), RemoveSpaces(s[1..]));
      } else {
        assert AllAlpha(word + [s[0]]);
        SplitWordsFacts(s[1..], word + [s[0]]);
        assert RemoveSpaces(s) == [s[0]] + RemoveSpaces(s[1..]);
        assert word + [s[0]] + RemoveSpaces(s[1..]) == word + RemoveSpaces(s);
      }
    }
  }

  /** Emitting a finished word of letters in front of tokens that spell `rest`. */
  lemma EmitWord(word: string, tokens: seq<string>, rest: string)
    requires AllAlpha(word) && ValidTokens(tokens) && Concat(tokens) == rest
    ensures var head: seq<string> := if word == [] then [] else [word];
            ValidTokens(head + tokens) && Concat(head + tokens) == word + rest
  {
    var head: seq<string> := if word == [] then [] else [word];
    ConcatAppend(head, tokens);
    if word == [] {
      assert head + tokens == tokens;
    } else {
      assert Concat(head) == word + Concat(head[1..]);
      assert head[1..] == [];
    }
  }

  lemma {:induction false} ConcatAppend(a: seq<string>, b: seq<string>)
    ensures Concat(a + b) == Concat(a) + Concat(b)
  {
    if a != [] {
      assert (a + b)[1..] == a[1..] + b;
      ConcatAppend(a[1..], b);
    } else {
      assert a + b == b;
    }
  }

  /**
   * Every token of `clean_text` is a non-empty string of letters, and the tokens spell out
   * the letters of the tweet in their original order and case.
   */
  lemma CleanTextTokens(text: string)
    ensures ValidTokens(CleanText(text))
    ensures Concat(CleanText(text)) == Letters(text)
  {
    KeepLettersFacts(text);
    SplitWordsFacts(KeepLetters(text), []);
  }

  lemma {:induction false} KeepLettersAppend(a: string, b: string)
    ensures KeepLetters(a + b) == KeepLetters(a) + KeepLetters(b)
  {
    if a != [] {
      assert (a + b)[1..] == a[1..] + b;
      KeepLettersAppend(a[1..], b);
    } else {
      assert a + b == b;
    }
  }

  /** A space ends the run being read; what follows is split afresh. */
  lemma {:induction false} SplitWordsAtSpace(x: string, y: string, word: string)
    ensures SplitWords(x + " " + y, word) == SplitWords(x, word) + SplitWords(y, [])
    decreases |x|
  {
    if x == [] {
      assert x + " " + y == " " + y;
      assert (" " + y)[1..] == y;
    } else {
      assert (x + " " + y)[0] == x[0];
      assert (x + " " + y)[1..] == x[1..] + " " + y;
      if x[0] == ' ' {
        SplitWordsAtSpace(x[1..], y, []);
      } else {
        SplitWordsAtSpace(x[1..], y, word + [x[0]]);
      }
    }
  }

  /** No token of `clean_text` spans a space: the tweet splits into its two sides. */
  lemma CleanTextAtSpace(a: string, b: string)
    ensures CleanText(a + " " + b) == CleanText(a) + CleanText(b)
  {
    KeepLettersAppend(a + " ", b);
    KeepLettersAppend(a, " ");
    assert KeepLetters(" ") == " ";
    SplitWordsAtSpace(KeepLetters(a), KeepLetters(b), []);
  }

  lemma {:induction false} KeepLettersNoSpace(text: string)
    requires forall k | 0 <= k < |text| :: text[k] != ' '
    ensures KeepLetters(text) == Letters(text)
    ensures AllAlpha(KeepLetters(text))
  {
    if text != [] {
      KeepLettersNoSpace(text[1..]);
    }
  }

  /**
   * A stretch without spaces is one token, its letters with every other character deleted
   * (`don't` gives `dont`), or no token when it holds no letter (`19`).
   */
  lemma CleanTextNoSpace(text: string)
    requires forall k | 0 <= k < |text| :: text[k] != ' '
    ensures CleanText(text) == (if Letters(text) == [] then [] else [Letters(text)])
  {
    var w := KeepLetters(text);
    KeepLettersNoSpace(text);
    assert forall k | 0 <= k < |w| :: w[k] != ' ';
    SplitWordsRun(w, [], []);
    assert w + [] == w && [] + w == w;
  }

  /** `clean_text("don't go") == ["dont", "go"]`: a token can join letters across punctuation. */
  lemma CleanTextExample()
    ensures CleanText("don't go") == ["dont", "go"]
  {
    assert "don't go" == "don't" + " " + "go";
    CleanTextAtSpace("don't", "go");
    CleanTextNoSpace("don't");
    CleanTextNoSpace("go");
    assert Letters("don't") == "dont";
    assert Letters("go") == "go";
  }

  lemma {:induction false} SplitWordsRun(w: string, rest: string, word: string)
    requires forall k | 0 <= k < |w| :: w[k] != ' '
    ensures SplitWords(w + rest, word) == SplitWords(rest, word + w)
    decreases |w|
  {
    if w != [] {
      assert (w + rest)[0] == w[0] && (w + rest)[1..] == w[1..] + rest;
      SplitWordsRun(w[1..], rest, word + [w[0]]);
      assert word + [w[0]] + w[1..] == word + w;
    } else {
      assert w + rest == rest && word + w == word;
    }
  }

  /** Splitting the words joined by single spaces gives the words back. */
  lemma {:induction false} SplitJoin(words: seq<string>, word: string)
    requires |words| > 0 && ValidTokens(words)
    ensures SplitWords(Join(words), word) == [word + words[0]] + words[1..]
    decreases |words|
  {
    if |words| == 1 {
      SplitWordsRun(words[0], [], word);
      assert words[0] + [] == words[0];
    } else {
      var rest := Join(words[1..]);
      assert Join(words) == words[0] + (" " + rest);
      SplitWordsRun(words[0], " " + rest, word);
      assert (" " + rest)[1..] == rest;
      SplitJoin(words[1..], []);
      assert [] + words[1..][0] == words[1];
      assert [words[1]] + words[1..][1..] == words[1..];
    }
  }

  lemma {:induction false} JoinLettersAndSpaces(words: seq<string>)
    requires ValidTokens(words)
    ensures LettersAndSpaces(Join(words))
    decreases |words|
  {
    if |words| > 1 {
      JoinLettersAndSpaces(words[1..]);
    }
  }

  lemma {:induction false} KeepLettersIdentity(s: string)
    requires LettersAndSpaces(s)
    ensures KeepLetters(s) == s
  {
    if s != [] {
      KeepLettersIdentity(s[1..]);
      assert s == [s[0]] + s[1..];
    }
  }

  /**
   * Cleaning the tokens of `clean_text` joined by single spaces gives the same tokens:
   * cleaning is idempotent, and it never changes letter case.
   */
  lemma CleanTextIdempotent(text: string)
    ensures CleanText(Join(CleanText(text))) == CleanText(text)
  {
    var tokens := CleanText(text);
    CleanTextTokens(text);
    JoinLettersAndSpaces(tokens);
    KeepLettersIdentity(Join(tokens));
    if |tokens| > 0 {
      SplitJoin(tokens, []);
      assert [] + tokens[0] == tokens[0];
      assert [tokens[0]] + tokens[1..] == tokens;
    }
  }

  // ---------------------------------------------------------------------------
  // The lexicon: get_lexicon_data
  // ---------------------------------------------------------------------------

  /** One row of the lexicon file: a word, an emotion name and the word's value for it. */
  datatype LexiconRow = LexiconRow(word: string, emotion: string, value: int)

  /** Emotion name to value: one word's lexicon entry, or a day's emotion vector. */
  type Scores = map<string, int>

  /** Each word, in order of first appearance, with its entry. */
  type Lexicon = Dict<string, Scores>

  /** The lexicon after one more row: the word gets an entry if new, then the emotion is set. */
  function AddRow(lex: Lexicon, row: LexiconRow): Lexicon
  {
    var entry := if row.word in lex.items then lex.items[row.word] else map[];
    Put(lex, row.word, entry[row.emotion := row.value])
  }

  /** The dictionary `get_lexicon_data` builds from `rows`, read in order. */
  function LexiconOf(rows: seq<LexiconRow>): (lex: Lexicon)
  {
    if rows == [] then Empty() else AddRow(LexiconOf(rows[..|rows| - 1]), rows[|rows| - 1])
  }

  /** `get_lexicon_data`, with the rows of the lexicon file given instead of the file. */
  method GetLexiconData(rows: seq<LexiconRow>) returns (wordsIndices: Lexicon)
    ensures wordsIndices == LexiconOf(rows)
  {
    wordsIndices := Empty();
    for i := 0 to |rows|
      invariant wordsIndices == LexiconOf(rows[..i])
    {
      assert rows[..i + 1][..i] == rows[..i];
      var row := rows[i];
      ghost var previous := wordsIndices;
      if row.word !in wordsIndices.items {
        wordsIndices := Put(wordsIndices, row.word, map[]);
      }
      ghost var entry := wordsIndices.items[row.word];
      wordsIndices := Put(wordsIndices, row.word, wordsIndices.items[row.word][row.emotion := row.value]);
      PutTwice(previous, row.word, entry, entry[row.emotion := row.value]);
    }
    assert rows[..|rows|] == rows;
  }

  lemma {:induction false} LexiconValid(rows: seq<LexiconRow>)
    ensures LexiconOf(rows).Valid()
  {
    if rows != [] {
      LexiconValid(rows[..|rows| - 1]);
    }
  }

  /** The lexicon's words are exactly the words of the rows. */
  lemma {:induction false} LexiconWords(rows: seq<LexiconRow>, w: string)
    ensures w in LexiconOf(rows).items <==> exists i | 0 <= i < |rows| :: rows[i].word == w
  {
    if rows != [] {
      var n := |rows| - 1;
      LexiconWords(rows[..n], w);
      if exists i | 0 <= i < n :: rows[..n][i].word == w {
        var i :| 0 <= i < n && rows[..n][i].word == w;
        assert rows[i].word == w;
      }
      if exists i | 0 <= i < |rows| :: rows[i].word == w {
        var i :| 0 <= i < |rows| && rows[i].word == w;
        if i < n {
          assert rows[..n][i].word == w;
        }
      }
    }
  }

  /**
   * A word's entry holds exactly the emotions that occur with it, and a repeated
   * (word, emotion) pair takes the value of its last row.
   */
  lemma {:induction false} LexiconEntry(rows: seq<LexiconRow>, i: nat)
    requires i < |rows|
    requires forall j | i < j < |rows| :: rows[j].word != rows[i].word || rows[j].emotion != rows[i].emotion
    ensures rows[i].word in LexiconOf(rows).items && rows[i].emotion in LexiconOf(rows).items[rows[i].word]
    ensures LexiconOf(rows).items[rows[i].word][rows[i].emotion] == rows[i].value
  {
    var n := |rows| - 1;
    if i < n {
      assert forall j | i < j < n :: rows[..n][j] == rows[j];
      LexiconEntry(rows[..n], i);
    }
  }

  lemma {:induction false} LexiconEmotions(rows: seq<LexiconRow>, w: string, e: string)
    requires w in LexiconOf(rows).items
    ensures e in LexiconOf(rows).items[w] <==>
              exists i | 0 <= i < |rows| :: rows[i].word == w && rows[i].emotion == e
  {
    var n := |rows| - 1;
    var prefix := rows[..n];
    LexiconEntryStep(rows, w, e);
    RowsWithPair(rows, w, e);
    if w in LexiconOf(prefix).items {
      LexiconEmotions(prefix, w, e);
    } else {
      LexiconWords(prefix, w);
    }
  }

  /** A (word, emotion) pair occurs in the rows if it occurs before the last row or in it. */
  lemma RowsWithPair(rows: seq<LexiconRow>, w: string, e: string)
    requires rows != []
    ensures var n := |rows| - 1;
            (exists i | 0 <= i < |rows| :: rows[i].word == w && rows[i].emotion == e) <==>
              (exists i | 0 <= i < n :: rows[..n][i].word == w && rows[..n][i].emotion == e) ||
              (rows[n].word == w && rows[n].emotion == e)
  {
    var n := |rows| - 1;
    var prefix := rows[..n];
    if exists i | 0 <= i < n :: prefix[i].word == w && prefix[i].emotion == e {
      var i :| 0 <= i < n && prefix[i].word == w && prefix[i].emotion == e;
      assert rows[i] == prefix[i];
    }
    if exists i | 0 <= i < |rows| :: rows[i].word == w && rows[i].emotion == e {
      var i :| 0 <= i < |rows| && rows[i].word == w && rows[i].emotion == e;
      if i < n {
        assert prefix[i] == rows[i];
      }
    }
  }

  /** After one more row, a word's entry has an emotion if that row or an earlier one gave it. */
  lemma LexiconEntryStep(rows: seq<LexiconRow>, w: string, e: string)
    requires rows != [] && w in LexiconOf(rows).items
    ensures var last, before := rows[|rows| - 1], LexiconOf(rows[..|rows| - 1]);
            e in LexiconOf(rows).items[w] <==>
              (w == last.word && e == last.emotion) || (w in before.items && e in before.items[w])
  {
  }

  lemma LexiconKeysStep(rows: seq<LexiconRow>)
    requires rows != []
    ensures var prefix := LexiconOf(rows[..|rows| - 1]);
            var w := rows[|rows| - 1].word;
            LexiconOf(rows).keys == if w in prefix.items then prefix.keys else prefix.keys + [w]
    ensures LexiconOf(rows).keys[..|LexiconOf(rows[..|rows| - 1]).keys|] == LexiconOf(rows[..|rows| - 1]).keys
    ensures forall i | 0 <= i < |LexiconOf(rows[..|rows| - 1]).keys| ::
              LexiconOf(rows).keys[i] == LexiconOf(rows[..|rows| - 1]).keys[i]
    ensures rows[|rows| - 1].word in LexiconOf(rows[..|rows| - 1]).items <==>
              |LexiconOf(rows).keys| == |LexiconOf(rows[..|rows| - 1]).keys|
  {
    LexiconValid(rows[..|rows| - 1]);
  }

  /** The lexicon iterates its words in the order of their first rows. */
  lemma {:induction false} LexiconOrder(rows: seq<LexiconRow>, a: nat, b: nat, q: nat)
    requires a < b < |LexiconOf(rows).keys| && q < |rows|
    requires rows[q].word == LexiconOf(rows).keys[b]
    ensures exists p | 0 <= p < q :: rows[p].word == LexiconOf(rows).keys[a]
    decreases |rows|, 2
  {
    var n := |rows| - 1;
    LexiconKeysStep(rows);
    if b < |LexiconOf(rows[..n]).keys| {
      LexiconOrderKnown(rows, a, b, q);
    } else {
      NewWordIsLast(rows, b);
      if q < n {
        assert false;
      } else {
        LexiconOrderOld(rows, a);
      }
    }
  }

  /** Case of `LexiconOrder` where the later word was already known before the last row. */
  lemma {:induction false} LexiconOrderKnown(rows: seq<LexiconRow>, a: nat, b: nat, q: nat)
    requires rows != [] && a < b < |LexiconOf(rows[..|rows| - 1]).keys| && q < |rows|
    requires LexiconOf(rows).keys[..|LexiconOf(rows[..|rows| - 1]).keys|] == LexiconOf(rows[..|rows| - 1]).keys
    requires rows[q].word == LexiconOf(rows).keys[b]
    ensures exists p | 0 <= p < q :: rows[p].word == LexiconOf(rows).keys[a]
    decreases |rows|, 1
  {
    var n := |rows| - 1;
    var prefix := rows[..n];
    var before := LexiconOf(prefix);
    if q == n {
      LexiconValid(prefix);
      assert before.keys[b] in before.items;
      LexiconWords(prefix, before.keys[b]);
      var i :| 0 <= i < n && prefix[i].word == before.keys[b];
      LexiconOrderBefore(rows, a, b, i);
    } else {
      LexiconOrderBefore(rows, a, b, q);
    }
  }

  /**
   * A key that the last row added is that row's word, and no earlier row has it.
   */
  lemma NewWordIsLast(rows: seq<LexiconRow>, b: nat)
    requires rows != [] && |LexiconOf(rows[..|rows| - 1]).keys| <= b < |LexiconOf(rows).keys|
    ensures LexiconOf(rows).keys[b] == rows[|rows| - 1].word
    ensures b == |LexiconOf(rows[..|rows| - 1]).keys|
    ensures forall q | 0 <= q < |rows| - 1 :: rows[q].word != rows[|rows| - 1].word
  {
    var n := |rows| - 1;
    LexiconKeysStep(rows);
    LexiconWords(rows[..n], rows[n].word);
    assert forall q | 0 <= q < n :: rows[..n][q] == rows[q];
  }

  /** A word the lexicon of all rows but the last already has occurs in one of those rows. */
  lemma LexiconOrderOld(rows: seq<LexiconRow>, a: nat)
    requires rows != [] && a < |LexiconOf(rows[..|rows| - 1]).keys|
    ensures exists p | 0 <= p < |rows| - 1 :: rows[p].word == LexiconOf(rows).keys[a]
  {
    var n := |rows| - 1;
    var prefix := rows[..n];
    var before := LexiconOf(prefix);
    LexiconValid(prefix);
    LexiconKeysStep(rows);
    assert before.keys[a] in before.items;
    LexiconWords(prefix, before.keys[a]);
    var p0 :| 0 <= p0 < n && prefix[p0].word == before.keys[a];
    assert rows[p0] == prefix[p0];
  }

  lemma {:induction false} LexiconOrderBefore(rows: seq<LexiconRow>, a: nat, b: nat, q: nat)
    requires rows != []
    requires a < b < |LexiconOf(rows[..|rows| - 1]).keys| && q < |rows| - 1
    requires LexiconOf(rows).keys[..|LexiconOf(rows[..|rows| - 1]).keys|] == LexiconOf(rows[..|rows| - 1]).keys
    requires rows[q].word == LexiconOf(rows).keys[b]
    ensures exists p | 0 <= p < q :: rows[p].word == LexiconOf(rows).keys[a]
    decreases |rows|, 0
  {
    var n := |rows| - 1;
    var prefix := rows[..n];
    var before := LexiconOf(prefix);
    assert before.keys[b] == LexiconOf(rows).keys[b] && before.keys[a] == LexiconOf(rows).keys[a];
    assert prefix[q].word == before.keys[b];
    LexiconOrder(prefix, a, b, q);
    var p :| 0 <= p < q && prefix[p].word == before.keys[a];
    assert rows[p] == prefix[p];
  }

  // ---------------------------------------------------------------------------
  // Scoring one day: daily_average_emotions
  // ---------------------------------------------------------------------------

  /** The ten emotions of a day's vector. */
  const Emotions: set<string> :=
    {"anger", "anticipation", "disgust", "fear", "joy", "negative", "positive", "sadness", "surprise", "trust"}

  /** The vector a day starts from: every emotion at 0. */
  const Zero: Scores := map e | e in Emotions :: 0

  function Get(m: Scores, k: string): int {
    if k in m then m[k] else 0
  }

  /**
   * Adds each value of the lexicon entry into the emotion vector under the same key, or
   * raises KeyError for a key the vector does not have.
   */
  function AddScores(vector: Scores, entry: Scores): Result<Scores> {
    if entry.Keys <= vector.Keys then Ok(map k | k in vector :: vector[k] + Get(entry, k)) else Err(KeyError)
  }

  /**
   * The entry the fuzzy loop leaves in `word_lexicon` after visiting the first `n` words
   * of the lexicon: that of the last of them similar to `token`, or `current` if none is.
   */
  function LastSimilar(lex: Lexicon, similar: (string, string) -> bool, token: string, current: Scores, n: nat): Scores
    requires lex.Valid() && n <= |lex.keys|
  {
    if n == 0 then current
    else if similar(lex.keys[n - 1], token) then lex.items[lex.keys[n - 1]]
    else LastSimilar(lex, similar, token, current, n - 1)
  }

  /** The entry `word_lexicon` holds once `token` has been looked up (lines 48-53). */
  function Select(lex: Lexicon, similar: (string, string) -> bool, current: Scores, token: string): Scores
    requires lex.Valid()
  {
    if token in lex.items then lex.items[token] else LastSimilar(lex, similar, token, current, |lex.keys|)
  }

  /** The state of the scoring loop: the day's vector and `word_lexicon`. */
  datatype Tally = Tally(vector: Scores, current: Scores)

  /** One token of the scoring loop: look it up, then add the selected entry. */
  function Step(lex: Lexicon, similar: (string, string) -> bool, t: Tally, token: string): Result<Tally>
    requires lex.Valid()
  {
    var entry := Select(lex, similar, t.current, token);
    match AddScores(t.vector, entry)
    case Ok(v) => Ok(Tally(v, entry))
    case Err(e) => Err(e)
  }

  /** The scoring loop run over `tokens` from the all-zero vector and an empty `word_lexicon`. */
  function Score(lex: Lexicon, similar: (string, string) -> bool, tokens: seq<string>): Result<Tally>
    requires lex.Valid()
  {
    if tokens == [] then Ok(Tally(Zero, map[]))
    else
      match Score(lex, similar, tokens[..|tokens| - 1])
      case Err(e) => Err(e)
      case Ok(t) => Step(lex, similar, t, tokens[|tokens| - 1])
  }

  /** The tokens of a day's tweets, tweet after tweet. */
  function Tokens(tweets: seq<string>): seq<string> {
    if tweets == [] then [] else Tokens(tweets[..|tweets| - 1]) + CleanText(tweets[|tweets| - 1])
  }

  /** What `daily_average_emotions` returns for `day` and its tweets. */
  function DailyEmotions(lex: Lexicon, similar: (string, string) -> bool, day: DateTime, tweets: seq<string>)
    : Result<(DateTime, Scores)>
    requires lex.Valid()
  {
    match Score(lex, similar, Tokens(tweets))
    case Err(e) => Err(e)
    case Ok(t) => Ok((day, t.vector))
  }

  /** The loop over `word_lexicon` (lines 55-56): adds the entry, key by key. */
  method AccumulateEntry(vector: Scores, entry: Scores) returns (r: Result<Scores>)
    ensures r.Ok? <==> entry.Keys <= vector.Keys
    ensures r.Ok? ==> r.value.Keys == vector.Keys && forall k | k in vector :: r.value[k] == vector[k] + Get(entry, k)
    ensures r == AddScores(vector, entry)
  {
    var acc := vector;
    var pending := entry.Keys;
    while pending != {}
      invariant pending <= entry.Keys
      invariant acc.Keys == vector.Keys
      invariant entry.Keys - pending <= vector.Keys
      invariant forall k | k in acc :: acc[k] == vector[k] + (if k in entry && k !in pending then entry[k] else 0)
      decreases pending
    {
      var key :| key in pending;
      if key !in acc {
        return Err(KeyError);
      }
      acc := acc[key := acc[key] + entry[key]];
      pending := pending - {key};
    }
    assert acc == map k | k in vector :: vector[k] + Get(entry, k);
    r := Ok(acc);
  }

  /**
   * `daily_average_emotions`, with the lexicon and the similarity test (Jaro-Winkler
   * similarity above 0.80) given as parameters instead of the file read and the library.
   */
  method DailyAverageEmotions(lex: Lexicon, similar: (string, string) -> bool, tweetTuple: (DateTime, seq<string>))
    returns (r: Result<(DateTime, Scores)>)
    requires lex.Valid()
    ensures r == DailyEmotions(lex, similar, tweetTuple.0, tweetTuple.1)
    ensures r.Ok? ==> r.value.0 == tweetTuple.0 && r.value.1.Keys == Emotions
    ensures Tokens(tweetTuple.1) == [] ==> r == Ok((tweetTuple.0, Zero))
  {
    DailyShape(lex, similar, tweetTuple.0, tweetTuple.1);
    var day, tweets := tweetTuple.0, tweetTuple.1;
    var wordLexicon: Scores := map[];
    var emotionLexicon := Zero;
    for i := 0 to |tweets|
      invariant Score(lex, similar, Tokens(tweets[..i])) == Ok(Tally(emotionLexicon, wordLexicon))
    {
      assert Tokens(tweets[..i + 1]) == Tokens(tweets[..i]) + CleanText(tweets[i]) by {
        assert tweets[..i + 1][..i] == tweets[..i];
      }
      var scored := ScoreTweet(lex, similar, Tokens(tweets[..i]), CleanText(tweets[i]), emotionLexicon, wordLexicon);
      if scored.Err? {
        r := Err(scored.error);
        ErrorInTweet(lex, similar, tweets, i);
        return;
      }
      emotionLexicon, wordLexicon := scored.value.vector, scored.value.current;
    }
    assert tweets[..|tweets|] == tweets;
    r := Ok((day, emotionLexicon));
  }

  /**
   * The inner loop of `daily_average_emotions` over the words of one tweet, continuing
   * from the state `Tally(vector, current)` reached after the tokens `done`.
   */
  method ScoreTweet(lex: Lexicon, similar: (string, string) -> bool, ghost done: seq<string>, words: seq<string>,
                    vector: Scores, current: Scores)
    returns (r: Result<Tally>)
    requires lex.Valid() && Score(lex, similar, done) == Ok(Tally(vector, current))
    ensures r == Score(lex, similar, done + words)
  {
    var wordLexicon, emotionLexicon := current, vector;
    assert done + words[..0] == done;
    for j := 0 to |words|
      invariant Score(lex, similar, done + words[..j]) == Ok(Tally(emotionLexicon, wordLexicon))
    {
      ghost var before := Tally(emotionLexicon, wordLexicon);
      var selected := LookUp(lex, similar, wordLexicon, words[j]);
      var added := AccumulateEntry(emotionLexicon, selected);
      ScoreNext(lex, similar, done, words, j);
      if added.Err? {
        r := Err(added.error);
        ScoreErrorInWords(lex, similar, done, words, j);
        return;
      }
      emotionLexicon, wordLexicon := added.value, selected;
    }
    assert words[..|words|] == words;
    r := Ok(Tally(emotionLexicon, wordLexicon));
  }

  /** A scored vector has exactly the ten emotions. */
  lemma {:induction false} ScoreShape(lex: Lexicon, similar: (string, string) -> bool, tokens: seq<string>)
    requires lex.Valid() && Score(lex, similar, tokens).Ok?
    ensures Score(lex, similar, tokens).value.vector.Keys == Emotions
    ensures Score(lex, similar, tokens).value.current.Keys <= Emotions
  {
    if tokens != [] {
      ScoreShape(lex, similar, tokens[..|tokens| - 1]);
    }
  }

  /**
   * A day's result pairs the given day with a vector of exactly the ten emotions, and a
   * day without tokens (no tweets, or none with a letter) scores all zero.
   */
  lemma DailyShape(lex: Lexicon, similar: (string, string) -> bool, day: DateTime, tweets: seq<string>)
    requires lex.Valid()
    ensures var r := DailyEmotions(lex, similar, day, tweets);
            r.Ok? ==> r.value.0 == day && r.value.1.Keys == Emotions
    ensures Tokens(tweets) == [] ==> DailyEmotions(lex, similar, day, tweets) == Ok((day, Zero))
  {
    if Score(lex, similar, Tokens(tweets)).Ok? {
      ScoreShape(lex, similar, Tokens(tweets));
    }
  }

  /** The lookup of lines 48-53: the exact entry, else the last similar word's entry. */
  method LookUp(lex: Lexicon, similar: (string, string) -> bool, wordLexicon: Scores, word: string)
    returns (selected: Scores)
    requires lex.Valid()
    ensures selected == Select(lex, similar, wordLexicon, word)
  {
    selected := wordLexicon;
    if word in lex.items {
      selected := lex.items[word];
    } else {
      for k := 0 to |lex.keys|
        invariant selected == LastSimilar(lex, similar, word, wordLexicon, k)
      {
        if similar(lex.keys[k], word) {
          selected := lex.items[lex.keys[k]];
        }
      }
    }
  }

  /** KeyError raised within tweet `i` is the day's outcome: the later tweets are not scored. */
  lemma ErrorInTweet(lex: Lexicon, similar: (string, string) -> bool, tweets: seq<string>, i: nat)
    requires lex.Valid() && i < |tweets|
    requires Score(lex, similar, Tokens(tweets[..i + 1])).Err?
    ensures Score(lex, similar, Tokens(tweets)) == Score(lex, similar, Tokens(tweets[..i + 1]))
  {
    TokensSplit(tweets, i + 1);
    ScoreErrorPersists(lex, similar, Tokens(tweets[..i + 1]), Tokens(tweets[i + 1..]));
  }

  /** The tokens of the tweets are those of the first `j` tweets followed by those of the rest. */
  lemma TokensSplit(tweets: seq<string>, j: nat)
    requires j <= |tweets|
    ensures Tokens(tweets) == Tokens(tweets[..j]) + Tokens(tweets[j..])
  {
    SplitAt(tweets, j);
    TokensAppend(tweets[..j], tweets[j..]);
  }

  lemma SplitAt<T>(s: seq<T>, j: nat)
    requires j <= |s|
    ensures s[..j] + s[j..] == s
  {
  }

  /** The state after `j + 1` words of a tweet is one step from the state after `j`. */
  lemma ScoreNext(lex: Lexicon, similar: (string, string) -> bool, done: seq<string>, words: seq<string>, j: nat)
    requires lex.Valid() && j < |words| && Score(lex, similar, done + words[..j]).Ok?
    ensures Score(lex, similar, done + words[..j + 1]) ==
              Step(lex, similar, Score(lex, similar, done + words[..j]).value, words[j])
  {
    ScoreSnoc(lex, similar, done + words[..j], words[j]);
    assert (done + words[..j]) + [words[j]] == done + words[..j + 1];
  }

  /** KeyError at word `j` of a tweet is the outcome of the whole tweet. */
  lemma ScoreErrorInWords(lex: Lexicon, similar: (string, string) -> bool, done: seq<string>, words: seq<string>, j: nat)
    requires lex.Valid() && j < |words| && Score(lex, similar, done + words[..j + 1]).Err?
    ensures Score(lex, similar, done + words) == Score(lex, similar, done + words[..j + 1])
  {
    SplitAppend(done, words, j + 1);
    ScoreErrorPersists(lex, similar, done + words[..j + 1], words[j + 1..]);
  }

  lemma SplitAppend<T>(p: seq<T>, q: seq<T>, j: nat)
    requires j <= |q|
    ensures p + q == (p + q[..j]) + q[j..]
  {
    assert q == q[..j] + q[j..];
  }

  lemma ScoreSnoc(lex: Lexicon, similar: (string, string) -> bool, p: seq<string>, token: string)
    requires lex.Valid()
    ensures Score(lex, similar, p).Err? ==> Score(lex, similar, p + [token]) == Score(lex, similar, p)
    ensures Score(lex, similar, p).Ok? ==>
              Score(lex, similar, p + [token]) == Step(lex, similar, Score(lex, similar, p).value, token)
  {
    assert (p + [token])[..|p|] == p;
  }

  lemma {:induction false} TokensAppend(a: seq<string>, b: seq<string>)
    ensures Tokens(a + b) == Tokens(a) + Tokens(b)
    decreases |b|
  {
    if b == [] {
      assert a + b == a;
    } else {
      var n := |b| - 1;
      assert (a + b)[..|a + b| - 1] == a + b[..n];
      TokensAppend(a, b[..n]);
    }
  }

  /** Once KeyError is raised, the rest of the day's tokens do not matter. */
  lemma {:induction false} ScoreErrorPersists(lex: Lexicon, similar: (string, string) -> bool, p: seq<string>, q: seq<string>)
    requires lex.Valid() && Score(lex, similar, p).Err?
    ensures Score(lex, similar, p + q) == Score(lex, similar, p)
    decreases |q|
  {
    if q == [] {
      assert p + q == p;
    } else {
      var n := |q| - 1;
      assert (p + q)[..|p + q| - 1] == p + q[..n];
      ScoreErrorPersists(lex, similar, p, q[..n]);
    }
  }

  // ---------------------------------------------------------------------------
  // What one token adds
  // ---------------------------------------------------------------------------

  /**
   * The fuzzy loop never breaks, so it keeps the LAST lexicon word (in iteration order)
   * similar to the token; when none of the first `n` words is similar, the entry of the
   * previous token stays.
   */
  lemma {:induction false} LastSimilarIsLast(lex: Lexicon, similar: (string, string) -> bool, token: string, current: Scores, n: nat)
    requires lex.Valid() && n <= |lex.keys|
    ensures (forall j | 0 <= j < n :: !similar(lex.keys[j], token)) ==>
              LastSimilar(lex, similar, token, current, n) == current
    ensures forall j | 0 <= j < n && similar(lex.keys[j], token) && (forall k | j < k < n :: !similar(lex.keys[k], token)) ::
              LastSimilar(lex, similar, token, current, n) == lex.items[lex.keys[j]]
  {
    if n > 0 {
      LastSimilarIsLast(lex, similar, token, current, n - 1);
    }
  }

  /** A token that is a lexicon word adds exactly its own entry, or raises KeyError. */
  lemma ExactTokenAddsEntry(lex: Lexicon, similar: (string, string) -> bool, p: seq<string>, token: string)
    requires lex.Valid() && Score(lex, similar, p).Ok? && token in lex.items
    ensures Score(lex, similar, p + [token]).Ok? <==> lex.items[token].Keys <= Emotions
    ensures Score(lex, similar, p + [token]).Err? ==> Score(lex, similar, p + [token]).error == KeyError
    ensures var t, entry := Score(lex, similar, p).value, lex.items[token];
            Score(lex, similar, p + [token]).Ok? ==>
              Score(lex, similar, p + [token]).value == Tally(map e | e in t.vector :: t.vector[e] + Get(entry, e), entry)
  {
    ScoreSnoc(lex, similar, p, token);
    ScoreShape(lex, similar, p);
  }

  /**
   * A token that is no lexicon word but is similar to some adds the entry of the LAST similar
   * word in the lexicon's key order (the fuzzy loop never breaks), or raises KeyError.
   */
  lemma SimilarTokenAddsLastSimilar(lex: Lexicon, similar: (string, string) -> bool, p: seq<string>, token: string, j: nat)
    requires lex.Valid() && Score(lex, similar, p).Ok? && token !in lex.items
    requires j < |lex.keys| && similar(lex.keys[j], token)
    requires forall k | j < k < |lex.keys| :: !similar(lex.keys[k], token)
    ensures var entry := lex.items[lex.keys[j]];
            Score(lex, similar, p + [token]).Ok? <==> entry.Keys <= Emotions
    ensures Score(lex, similar, p + [token]).Err? ==> Score(lex, similar, p + [token]).error == KeyError
    ensures var t, entry := Score(lex, similar, p).value, lex.items[lex.keys[j]];
            Score(lex, similar, p + [token]).Ok? ==>
              Score(lex, similar, p + [token]).value == Tally(map e | e in t.vector :: t.vector[e] + Get(entry, e), entry)
  {
    ScoreSnoc(lex, similar, p, token);
    ScoreShape(lex, similar, p);
    var t := Score(lex, similar, p).value;
    LastSimilarIsLast(lex, similar, token, t.current, |lex.keys|);
  }

  /**
   * `word_lexicon` is never reset: a token that is no lexicon word and is similar to none
   * adds the previous token's entry again, and adds nothing while no entry was selected.
   */
  lemma UnmatchedRepeatsPrevious(lex: Lexicon, similar: (string, string) -> bool, p: seq<string>, token: string)
    requires lex.Valid() && Score(lex, similar, p).Ok?
    requires token !in lex.items && forall j | 0 <= j < |lex.keys| :: !similar(lex.keys[j], token)
    ensures var t := Score(lex, similar, p).value;
            Score(lex, similar, p + [token]) == Ok(Tally(map e | e in t.vector :: t.vector[e] + Get(t.current, e), t.current))
    ensures Score(lex, similar, p).value.current == map[] ==>
              Score(lex, similar, p + [token]) == Score(lex, similar, p)
  {
    ScoreSnoc(lex, similar, p, token);
    ScoreShape(lex, similar, p);
    var t := Score(lex, similar, p).value;
    LastSimilarIsLast(lex, similar, token, t.current, |lex.keys|);
    if t.current == map[] {
      assert (map e | e in t.vector :: t.vector[e] + Get(t.current, e)) == t.vector;
    }
  }

  /** A lexicon entry holding a key outside the ten emotions raises KeyError for the whole day. */
  lemma BadEntryRaises(lex: Lexicon, similar: (string, string) -> bool, p: seq<string>, token: string, q: seq<string>)
    requires lex.Valid() && Score(lex, similar, p).Ok? && token in lex.items && !(lex.items[token].Keys <= Emotions)
    ensures Score(lex, similar, p + [token] + q) == Err(KeyError)
  {
    ExactTokenAddsEntry(lex, similar, p, token);
    ScoreErrorPersists(lex, similar, p + [token], q);
  }

  // ---------------------------------------------------------------------------
  // Exact matches: a component-wise sum, whatever the order
  // ---------------------------------------------------------------------------

  /** The value a lexicon word gives emotion `e` (0 for a word not in the lexicon). */
  function Found(lex: Lexicon, token: string, e: string): int {
    if token in lex.items then Get(lex.items[token], e) else 0
  }

  /** The sum over `tokens` of the value each gives emotion `e`. */
  function EntrySum(lex: Lexicon, tokens: seq<string>, e: string): int {
    if tokens == [] then 0 else EntrySum(lex, tokens[..|tokens| - 1], e) + Found(lex, tokens[|tokens| - 1], e)
  }

  /** Every token is a lexicon word whose entry uses only the ten emotions. */
  ghost predicate AllExact(lex: Lexicon, tokens: seq<string>) {
    forall i | 0 <= i < |tokens| :: tokens[i] in lex.items && lex.items[tokens[i]].Keys <= Emotions
  }

  /** With exact matches only, the day's vector is the component-wise sum of the entries. */
  lemma {:induction false} ExactMatchSum(lex: Lexicon, similar: (string, string) -> bool, tokens: seq<string>)
    requires lex.Valid() && AllExact(lex, tokens)
    ensures Score(lex, similar, tokens).Ok?
    ensures Score(lex, similar, tokens).value.vector.Keys == Emotions
    ensures forall e | e in Emotions :: Score(lex, similar, tokens).value.vector[e] == EntrySum(lex, tokens, e)
  {
    if tokens != [] {
      var p, token := tokens[..|tokens| - 1], tokens[|tokens| - 1];
      assert AllExact(lex, p) by {
        forall i | 0 <= i < |p|
          ensures p[i] in lex.items && lex.items[p[i]].Keys <= Emotions
        {
          assert p[i] == tokens[i];
        }
      }
      ExactMatchSum(lex, similar, p);
      ExactTokenAddsEntry(lex, similar, p, token);
      assert p + [token] == tokens;
      var v := Score(lex, similar, p).value.vector;
      var w := Score(lex, similar, tokens).value.vector;
      assert w == map e | e in v :: v[e] + Get(lex.items[token], e);
      assert tokens[..|tokens| - 1] == p;
      forall e | e in Emotions
        ensures w[e] == EntrySum(lex, tokens, e)
      {
        assert EntrySum(lex, tokens, e) == EntrySum(lex, p, e) + Found(lex, token, e);
      }
    }
  }

  lemma {:induction false} EntrySumAppend(lex: Lexicon, a: seq<string>, b: seq<string>, e: string)
    ensures EntrySum(lex, a + b, e) == EntrySum(lex, a, e) + EntrySum(lex, b, e)
    decreases |b|
  {
    if b == [] {
      assert a + b == a;
    } else {
      assert (a + b)[..|a + b| - 1] == a + b[..|b| - 1];
      EntrySumAppend(lex, a, b[..|b| - 1], e);
    }
  }

  lemma {:induction false} EntrySumPermutation(lex: Lexicon, a: seq<string>, b: seq<string>, e: string)
    requires multiset(a) == multiset(b)
    ensures EntrySum(lex, a, e) == EntrySum(lex, b, e)
    decreases |a|
  {
    if a != [] {
      var x := a[|a| - 1];
      var k := MatchLast(a, b);
      var rest := b[..k] + b[k + 1..];
      EntrySumPermutation(lex, a[..|a| - 1], rest, e);
      EntrySumAppend(lex, b[..k] + [x], b[k + 1..], e);
      EntrySumAppend(lex, b[..k], b[k + 1..], e);
      assert (b[..k] + [x])[..k] == b[..k];
    }
  }

  /** In a permutation `b` of `a`, some position `k` holds the last of `a`, and the rest match. */
  lemma MatchLast<T>(a: seq<T>, b: seq<T>) returns (k: nat)
    requires a != [] && multiset(a) == multiset(b)
    ensures k < |b| && b[k] == a[|a| - 1]
    ensures b == b[..k] + [b[k]] + b[k + 1..]
    ensures multiset(a[..|a| - 1]) == multiset(b[..k] + b[k + 1..])
  {
    var n := |a| - 1;
    var x := a[n];
    assert multiset(a[..n]) == multiset(a) - multiset{x} by {
      assert a == a[..n] + [x];
    }
    assert x in multiset(b) by {
      assert a[n] in multiset(a);
    }
    k :| 0 <= k < |b| && b[k] == x;
    assert b == b[..k] + [x] + b[k + 1..];
    assert multiset(b[..k] + b[k + 1..]) == multiset(b) - multiset{x} by {
      assert multiset(b) == multiset(b[..k] + b[k + 1..]) + multiset{x};
    }
  }

  /** With exact matches only, reordering the tokens leaves the day's vector unchanged. */
  lemma ExactMatchOrderIndependent(lex: Lexicon, similar: (string, string) -> bool, a: seq<string>, b: seq<string>)
    requires lex.Valid() && AllExact(lex, a) && multiset(a) == multiset(b)
    ensures Score(lex, similar, a).Ok? && Score(lex, similar, b).Ok?
    ensures Score(lex, similar, a).value.vector == Score(lex, similar, b).value.vector
  {
    assert AllExact(lex, b) by {
      forall i | 0 <= i < |b|
        ensures b[i] in lex.items && lex.items[b[i]].Keys <= Emotions
      {
        assert b[i] in multiset(a);
      }
    }
    ExactMatchSum(lex, similar, a);
    ExactMatchSum(lex, similar, b);
    forall e | e in Emotions
      ensures EntrySum(lex, a, e) == EntrySum(lex, b, e)
    {
      EntrySumPermutation(lex, a, b, e);
    }
  }

  // ---------------------------------------------------------------------------
  // Non-negative lexicons
  // ---------------------------------------------------------------------------

  predicate NonNegative(m: Scores) {
    forall k | k in m :: m[k] >= 0
  }

  /** Every entry uses only the ten emotions and holds no negative value. */
  ghost predicate WellFormed(lex: Lexicon) {
    lex.Valid() && forall w | w in lex.items :: lex.items[w].Keys <= Emotions && NonNegative(lex.items[w])
  }

  lemma {:induction false} LastSimilarWellFormed(lex: Lexicon, similar: (string, string) -> bool, token: string, current: Scores, n: nat)
    requires WellFormed(lex) && n <= |lex.keys| && current.Keys <= Emotions && NonNegative(current)
    ensures var r := LastSimilar(lex, similar, token, current, n); r.Keys <= Emotions && NonNegative(r)
  {
    if n > 0 {
      LastSimilarWellFormed(lex, similar, token, current, n - 1);
    }
  }

  /** Over a well-formed lexicon a day never raises, and every component stays at least 0. */
  lemma {:induction false} ScoreWellFormed(lex: Lexicon, similar: (string, string) -> bool, tokens: seq<string>)
    requires WellFormed(lex)
    ensures Score(lex, similar, tokens).Ok?
    ensures NonNegative(Score(lex, similar, tokens).value.vector)
    ensures var c := Score(lex, similar, tokens).value.current; c.Keys <= Emotions && NonNegative(c)
  {
    if tokens != [] {
      var p, token := tokens[..|tokens| - 1], tokens[|tokens| - 1];
      ScoreWellFormed(lex, similar, p);
      ScoreShape(lex, similar, p);
      LastSimilarWellFormed(lex, similar, token, Score(lex, similar, p).value.current, |lex.keys|);
    }
  }

  /** Over a well-formed lexicon no component ever decreases as the tokens are read. */
  lemma {:induction false} ScoreMonotone(lex: Lexicon, similar: (string, string) -> bool, tokens: seq<string>, i: nat)
    requires WellFormed(lex) && i <= |tokens|
    ensures Score(lex, similar, tokens[..i]).Ok? && Score(lex, similar, tokens).Ok?
    ensures forall e | e in Emotions ::
              Get(Score(lex, similar, tokens[..i]).value.vector, e) <= Get(Score(lex, similar, tokens).value.vector, e)
    decreases |tokens|
  {
    ScoreWellFormed(lex, similar, tokens[..i]);
    ScoreWellFormed(lex, similar, tokens);
    if i == |tokens| {
      assert tokens[..i] == tokens;
    } else {
      var p := tokens[..|tokens| - 1];
      assert p[..i] == tokens[..i];
      ScoreMonotone(lex, similar, p, i);
      ScoreWellFormed(lex, similar, p);
      ScoreShape(lex, similar, p);
      ScoreShape(lex, similar, tokens);
    }
  }

  // ---------------------------------------------------------------------------
  // The week: total_average_emotions_per_tweet
  // ---------------------------------------------------------------------------

  /** What `daily_average_emotions` returns for each day tuple, in order. */
  function Dailies(lex: Lexicon, similar: (string, string) -> bool, days: seq<(DateTime, seq<string>)>)
    : (r: seq<Result<(DateTime, Scores)>>)
    requires lex.Valid()
    ensures |r| == |days|
    ensures forall i | 0 <= i < |days| :: r[i] == DailyEmotions(lex, similar, days[i].0, days[i].1)
  {
    if days == [] then []
    else
      var n := |days| - 1;
      Dailies(lex, similar, days[..n]) + [DailyEmotions(lex, similar, days[n].0, days[n].1)]
  }

  /**
   * The loop of lines 69-71 over the days' results: each vector is stored under its day's
   * `YYYY-MM-DD` string, and the first error is raised.
   */
  function WeekFold(results: seq<Result<(DateTime, Scores)>>): Result<Dict<string, Scores>>
  {
    if results == [] then Ok(Empty())
    else
      match WeekFold(results[..|results| - 1])
      case Err(e) => Err(e)
      case Ok(week) =>
        match results[|results| - 1]
        case Err(e) => Err(e)
        case Ok(daily) => Ok(Put(week, TweetData.ToTwint(daily.0), daily.1))
  }

  /** What `total_average_emotions_per_tweet` returns for a sequence of day tuples. */
  function WeekToEmotion(lex: Lexicon, similar: (string, string) -> bool, days: seq<(DateTime, seq<string>)>)
    : Result<Dict<string, Scores>>
    requires lex.Valid()
  {
    WeekFold(Dailies(lex, similar, days))
  }

  /**
   * `total_average_emotions_per_tweet`: the first component of `tweets` is ignored, and each
   * day tuple's vector is stored under the day's `YYYY-MM-DD` string.
   */
  method TotalAverageEmotionsPerTweet(lex: Lexicon, similar: (string, string) -> bool,
                                      tweets: (DateTime, seq<(DateTime, seq<string>)>))
    returns (r: Result<Dict<string, Scores>>)
    requires lex.Valid()
    ensures r == WeekToEmotion(lex, similar, tweets.1)
  {
    var days := tweets.1;
    ghost var results := Dailies(lex, similar, days);
    var weekToEmotion: Dict<string, Scores> := Empty();
    for i := 0 to |days|
      invariant WeekFold(results[..i]) == Ok(weekToEmotion)
    {
      var daily := DailyAverageEmotions(lex, similar, days[i]);
      assert results[i] == daily;
      FoldPrefixStep(results, i);
      if daily.Err? {
        FoldErrorAt(results, i);
        return Err(daily.error);
      }
      weekToEmotion := Put(weekToEmotion, TweetData.ToTwint(daily.value.0), daily.value.1);
    }
    assert results[..|days|] == results;
    r := Ok(weekToEmotion);
  }

  /** The fold over the first `i + 1` results, from the fold over the first `i`. */
  lemma FoldPrefixStep(results: seq<Result<(DateTime, Scores)>>, i: nat)
    requires i < |results| && WeekFold(results[..i]).Ok?
    ensures results[i].Err? ==> WeekFold(results[..i + 1]) == Err(results[i].error)
    ensures results[i].Ok? ==>
              WeekFold(results[..i + 1]) ==
                Ok(Put(WeekFold(results[..i]).value, TweetData.ToTwint(results[i].value.0), results[i].value.1))
  {
    assert results[..i + 1][..i] == results[..i];
    FoldStep(results[..i + 1]);
  }

  /** Once a result is an error, the later results do not matter. */
  lemma {:induction false} FoldErrorPersists(p: seq<Result<(DateTime, Scores)>>, q: seq<Result<(DateTime, Scores)>>)
    requires WeekFold(p).Err?
    ensures WeekFold(p + q) == WeekFold(p)
    decreases |q|
  {
    if q == [] {
      assert p + q == p;
    } else {
      var n := |q| - 1;
      assert (p + q)[..|p + q| - 1] == p + q[..n];
      FoldErrorPersists(p, q[..n]);
    }
  }

  /** An error at result `i` is the outcome of the whole fold. */
  lemma FoldErrorAt(results: seq<Result<(DateTime, Scores)>>, i: nat)
    requires i < |results| && WeekFold(results[..i + 1]).Err?
    ensures WeekFold(results) == WeekFold(results[..i + 1])
  {
    SplitAppend([], results, i + 1);
    assert [] + results == results && [] + results[..i + 1] == results[..i + 1];
    FoldErrorPersists(results[..i + 1], results[i + 1..]);
  }

  lemma {:induction false} FoldOk(results: seq<Result<(DateTime, Scores)>>)
    ensures WeekFold(results).Ok? <==> forall i | 0 <= i < |results| :: results[i].Ok?
  {
    if results != [] {
      var n := |results| - 1;
      var p := results[..n];
      FoldOk(p);
      FoldStep(results);
      AllOkSnoc(results);
    }
  }

  /** Every result is `Ok` exactly when every earlier one and the last one are. */
  lemma AllOkSnoc(results: seq<Result<(DateTime, Scores)>>)
    requires results != []
    ensures var n := |results| - 1;
            (forall i | 0 <= i < |results| :: results[i].Ok?) <==>
              (forall i | 0 <= i < n :: results[..n][i].Ok?) && results[n].Ok?
  {
    var n := |results| - 1;
    assert forall i | 0 <= i < n :: results[..n][i] == results[i];
  }

  /** One more result: the fold stores it over the fold of the others, or raises. */
  lemma FoldStep(results: seq<Result<(DateTime, Scores)>>)
    requires results != []
    ensures var n := |results| - 1;
            WeekFold(results).Ok? <==> WeekFold(results[..n]).Ok? && results[n].Ok?
    ensures var n := |results| - 1;
            WeekFold(results).Ok? ==>
              WeekFold(results).value ==
                Put(WeekFold(results[..n]).value, TweetData.ToTwint(results[n].value.0), results[n].value.1)
  {
  }

  lemma {:induction false} FoldKeys(results: seq<Result<(DateTime, Scores)>>)
    requires WeekFold(results).Ok?
    ensures forall i | 0 <= i < |results| :: results[i].Ok?
    ensures WeekFold(results).value.Valid()
    ensures forall k | k in WeekFold(results).value.items ::
              exists i | 0 <= i < |results| :: k == TweetData.ToTwint(results[i].value.0)
  {
    FoldOk(results);
    if results != [] {
      var n := |results| - 1;
      var p := results[..n];
      FoldKeys(p);
      var week := WeekFold(results).value;
      forall k | k in week.items
        ensures exists i | 0 <= i < |results| :: k == TweetData.ToTwint(results[i].value.0)
      {
        if k != TweetData.ToTwint(results[n].value.0) {
          var i :| 0 <= i < |p| && k == TweetData.ToTwint(p[i].value.0);
          assert p[i] == results[i];
        }
      }
    }
  }

  lemma {:induction false} FoldKeysCover(results: seq<Result<(DateTime, Scores)>>, i: nat)
    requires WeekFold(results).Ok? && i < |results|
    ensures results[i].Ok? && TweetData.ToTwint(results[i].value.0) in WeekFold(results).value.items
  {
    var n := |results| - 1;
    var p := results[..n];
    if i < n {
      assert p[i] == results[i];
      FoldKeysCover(p, i);
    }
  }

  lemma {:induction false} FoldVectors(results: seq<Result<(DateTime, Scores)>>)
    requires WeekFold(results).Ok?
    requires forall i | 0 <= i < |results| :: results[i].Ok? ==> results[i].value.1.Keys == Emotions
    ensures forall k | k in WeekFold(results).value.items :: WeekFold(results).value.items[k].Keys == Emotions
  {
    if results != [] {
      var p := results[..|results| - 1];
      assert forall i | 0 <= i < |p| :: p[i] == results[i];
      FoldVectors(p);
    }
  }

  lemma {:induction false} FoldValues(results: seq<Result<(DateTime, Scores)>>, i: nat)
    requires WeekFold(results).Ok? && i < |results| && results[i].Ok?
    requires forall j | i < j < |results| ::
               results[j].Ok? ==> TweetData.ToTwint(results[j].value.0) != TweetData.ToTwint(results[i].value.0)
    ensures var week := WeekFold(results).value;
            TweetData.ToTwint(results[i].value.0) in week.items &&
            week.items[TweetData.ToTwint(results[i].value.0)] == results[i].value.1
  {
    var n := |results| - 1;
    var p := results[..n];
    FoldStep(results);
    var week, before := WeekFold(results).value, WeekFold(p).value;
    var k, last := TweetData.ToTwint(results[i].value.0), TweetData.ToTwint(results[n].value.0);
    assert week.items == before.items[last := results[n].value.1];
    if i < n {
      assert p[i] == results[i];
      assert forall j | i < j < |p| :: p[j] == results[j];
      FoldValues(p, i);
      assert last != k;
    }
  }

  /** Once a day raises, the rest of the week does not matter. */
  lemma WeekErrorPersists(lex: Lexicon, similar: (string, string) -> bool, days: seq<(DateTime, seq<string>)>, i: nat)
    requires lex.Valid() && i < |days| && DailyEmotions(lex, similar, days[i].0, days[i].1).Err?
    ensures WeekToEmotion(lex, similar, days).Err?
  {
    FoldOk(Dailies(lex, similar, days));
  }

  /** The week succeeds exactly when every day does. */
  lemma WeekOk(lex: Lexicon, similar: (string, string) -> bool, days: seq<(DateTime, seq<string>)>)
    requires lex.Valid()
    ensures WeekToEmotion(lex, similar, days).Ok? <==>
              forall i | 0 <= i < |days| :: DailyEmotions(lex, similar, days[i].0, days[i].1).Ok?
  {
    FoldOk(Dailies(lex, similar, days));
  }

  /** A day's result, when there is one, carries the day it was given. */
  lemma DailiesDays(lex: Lexicon, similar: (string, string) -> bool, days: seq<(DateTime, seq<string>)>)
    requires lex.Valid()
    ensures forall i | 0 <= i < |days| :: Dailies(lex, similar, days)[i].Ok? ==>
              Dailies(lex, similar, days)[i].value.0 == days[i].0 &&
              Dailies(lex, similar, days)[i].value.1.Keys == Emotions
  {
    forall i | 0 <= i < |days|
      ensures Dailies(lex, similar, days)[i].Ok? ==>
                Dailies(lex, similar, days)[i].value.0 == days[i].0 &&
                Dailies(lex, similar, days)[i].value.1.Keys == Emotions
    {
      DailyShape(lex, similar, days[i].0, days[i].1);
    }
  }

  /** Every key of the week is the `YYYY-MM-DD` string of one of the days. */
  lemma WeekKeysFromDays(lex: Lexicon, similar: (string, string) -> bool, days: seq<(DateTime, seq<string>)>)
    requires lex.Valid() && WeekToEmotion(lex, similar, days).Ok?
    ensures WeekToEmotion(lex, similar, days).value.Valid()
    ensures forall k | k in WeekToEmotion(lex, similar, days).value.items ::
              exists i | 0 <= i < |days| :: k == TweetData.ToTwint(days[i].0)
  {
    var results := Dailies(lex, similar, days);
    FoldKeys(results);
    DailiesDays(lex, similar, days);
    forall k | k in WeekFold(results).value.items
      ensures exists i | 0 <= i < |days| :: k == TweetData.ToTwint(days[i].0)
    {
      var i :| 0 <= i < |results| && k == TweetData.ToTwint(results[i].value.0);
      assert results[i].value.0 == days[i].0;
    }
  }

  /** Every day's `YYYY-MM-DD` string is a key of the week. */
  lemma WeekKeysCoverDays(lex: Lexicon, similar: (string, string) -> bool, days: seq<(DateTime, seq<string>)>, i: nat)
    requires lex.Valid() && WeekToEmotion(lex, similar, days).Ok? && i < |days|
    ensures TweetData.ToTwint(days[i].0) in WeekToEmotion(lex, similar, days).value.items
  {
    FoldKeysCover(Dailies(lex, similar, days), i);
    DailyShape(lex, similar, days[i].0, days[i].1);
  }

  /** Every day of the week holds exactly the ten emotions. */
  lemma WeekVectors(lex: Lexicon, similar: (string, string) -> bool, days: seq<(DateTime, seq<string>)>)
    requires lex.Valid() && WeekToEmotion(lex, similar, days).Ok?
    ensures forall k | k in WeekToEmotion(lex, similar, days).value.items ::
              WeekToEmotion(lex, similar, days).value.items[k].Keys == Emotions
  {
    DailiesDays(lex, similar, days);
    FoldVectors(Dailies(lex, similar, days));
  }

  /**
   * Each key holds the vector of the LAST day tuple with that date: a later tuple on the
   * same date overwrites an earlier one.
   */
  lemma WeekValues(lex: Lexicon, similar: (string, string) -> bool, days: seq<(DateTime, seq<string>)>, i: nat)
    requires lex.Valid() && WeekToEmotion(lex, similar, days).Ok? && i < |days|
    requires forall j | i < j < |days| :: TweetData.ToTwint(days[j].0) != TweetData.ToTwint(days[i].0)
    ensures DailyEmotions(lex, similar, days[i].0, days[i].1).Ok?
    ensures var week := WeekToEmotion(lex, similar, days).value;
            TweetData.ToTwint(days[i].0) in week.items &&
            week.items[TweetData.ToTwint(days[i].0)] == DailyEmotions(lex, similar, days[i].0, days[i].1).value.1
  {
    var results := Dailies(lex, similar, days);
    FoldOk(results);
    DailiesDays(lex, similar, days);
    FoldValues(results, i);
  }

  // ---------------------------------------------------------------------------
  // A worked day
  // ---------------------------------------------------------------------------

  /** A one-word lexicon: "happy", with joy 1. */
  const HappyLexicon: Lexicon := Dict(["happy"], map["happy" := map["joy" := 1]])

  /** A similarity test no pair of words passes. */
  predicate NeverSimilar(lexWord: string, token: string) {
    false
  }

  /** The tokens of "I am happy today so happy". */
  const HappyTokens: seq<string> := ["I", "am", "happy", "today", "so", "happy"]

  /** The state after a token in the worked day: "happy" selected, and `joy` so far. */
  predicate HappyState(r: Result<Tally>, joy: int) {
    r.Ok? && r.value.current == map["joy" := 1] && Get(r.value.vector, "joy") == joy && Get(r.value.vector, "sadness") == 0
  }

  /** An unmatched token after "happy" adds joy 1 again. */
  lemma HappyRepeats(p: seq<string>, token: string, joy: int)
    requires HappyState(Score(HappyLexicon, NeverSimilar, p), joy) && token != "happy"
    ensures HappyState(Score(HappyLexicon, NeverSimilar, p + [token]), joy + 1)
  {
    UnmatchedRepeatsPrevious(HappyLexicon, NeverSimilar, p, token);
  }

  /** "happy" adds joy 1 and becomes the selected entry. */
  lemma HappyAdds(p: seq<string>, joy: int)
    requires Score(HappyLexicon, NeverSimilar, p).Ok?
    requires Get(Score(HappyLexicon, NeverSimilar, p).value.vector, "joy") == joy
    requires Get(Score(HappyLexicon, NeverSimilar, p).value.vector, "sadness") == 0
    ensures HappyState(Score(HappyLexicon, NeverSimilar, p + ["happy"]), joy + 1)
  {
    ExactTokenAddsEntry(HappyLexicon, NeverSimilar, p, "happy");
    ScoreShape(HappyLexicon, NeverSimilar, p);
  }

  lemma CarryOverStart()
    ensures HappyLexicon.Valid()
    ensures HappyState(Score(HappyLexicon, NeverSimilar, HappyTokens[..3]), 1)
  {
    var tokens := HappyTokens;
    HappyNothingYet([], "I");
    assert [] + ["I"] == tokens[..1];
    HappyNothingYet(tokens[..1], "am");
    assert tokens[..1] + ["am"] == tokens[..2];
    HappyAdds(tokens[..2], 0);
    assert tokens[..2] + ["happy"] == tokens[..3];
  }

  /** Before "happy", an unmatched token adds nothing. */
  lemma HappyNothingYet(p: seq<string>, token: string)
    requires Score(HappyLexicon, NeverSimilar, p) == Ok(Tally(Zero, map[])) && token != "happy"
    ensures Score(HappyLexicon, NeverSimilar, p + [token]) == Ok(Tally(Zero, map[]))
  {
    UnmatchedRepeatsPrevious(HappyLexicon, NeverSimilar, p, token);
  }

  lemma CarryOverMiddle()
    ensures HappyState(Score(HappyLexicon, NeverSimilar, HappyTokens[..5]), 3)
  {
    var tokens := HappyTokens;
    CarryOverStart();
    HappyRepeats(tokens[..3], "today", 1);
    assert tokens[..3] + ["today"] == tokens[..4];
    HappyRepeats(tokens[..4], "so", 2);
    assert tokens[..4] + ["so"] == tokens[..5];
  }

  /**
   * With "happy" the only lexicon word (joy 1) and no similar words, the tokens of
   * "I am happy today so happy" give joy 4, not 2: after the first "happy", the
   * unmatched "today" and "so" add its entry again.
   */
  lemma CarryOverExample()
    ensures HappyLexicon.Valid()
    ensures var r := Score(HappyLexicon, NeverSimilar, HappyTokens);
            r.Ok? && Get(r.value.vector, "joy") == 4 && Get(r.value.vector, "sadness") == 0
  {
    CarryOverStart();
    CarryOverMiddle();
    HappyAdds(HappyTokens[..5], 3);
    assert HappyTokens[..5] + ["happy"] == HappyTokens;
  }
}
