/** The keyword-overlap retriever of the RAG evaluation script and its per-question
    scoring loop: nodes are ranked by how many distinct lower-cased words they share
    with the question, and each retrieved context counts as a hit when it shares at
    least one word with it. */
module KeywordRetriever {
  import opened Wrappers
  import opened Seqs
  import opened Text
  import opened StableSort

  /** A character `\w` matches: letters, digits, numerals and `_` (the ASCII and Latin-1
      ones). */
  predicate IsWordChar(c: char) {
    || IsAsciiAlnum(c) || c == '_'
    || c == '\U{AA}' || c == '\U{B2}' || c == '\U{B3}' || c == '\U{B5}' || c == '\U{B9}' || c == '\U{BA}'
    || ('\U{BC}' <= c <= '\U{FF}' && c != '\U{BF}' && c != '\U{D7}' && c != '\U{F7}')
  }

  /** The maximal runs of word characters of `s`, continuing the run `run` already
      read. */
  function WordsFrom(s: string, run: string): seq<string>
    decreases |s|
  {
    if s == [] then (if run == [] then [] else [run])
    else if IsWordChar(s[0]) then WordsFrom(s[1..], run + [s[0]])
    else (if run == [] then [] else [run]) + WordsFrom(s[1..], [])
  }

  /** `re.findall(r"\w+", s)`. */
  function Words(s: string): seq<string> {
    WordsFrom(s, [])
  }

  /** Every word is a non-empty run of word characters. */
  lemma {:induction false} WordsFromShape(s: string, run: string)
    requires forall c :: c in run ==> IsWordChar(c)
    ensures forall w :: w in WordsFrom(s, run) ==> w != [] && forall c :: c in w ==> IsWordChar(c)
    decreases |s|
  {
    if s != [] {
      if IsWordChar(s[0]) {
        assert forall c :: c in run + [s[0]] ==> c in run || c == s[0];
        WordsFromShape(s[1..], run + [s[0]]);
      } else {
        WordsFromShape(s[1..], []);
      }
    }
  }

  /** The words are exactly the word characters of the text, in order, cut into runs. */
  lemma {:induction false} WordsFromKeepWordChars(s: string, run: string)
    ensures Concat(WordsFrom(s, run)) == run + Filter(s, IsWordChar)
    decreases |s|
  {
    if s == [] {
      assert Concat([run]) == run + Concat([]);
    } else if IsWordChar(s[0]) {
      WordsFromKeepWordChars(s[1..], run + [s[0]]);
      assert run + [s[0]] + Filter(s[1..], IsWordChar) == run + ([s[0]] + Filter(s[1..], IsWordChar));
    } else {
      WordsFromKeepWordChars(s[1..], []);
      var rest := WordsFrom(s[1..], []);
      assert Filter(s, IsWordChar) == Filter(s[1..], IsWordChar);
      if run != [] {
        assert ([run] + rest)[1..] == rest;
        assert Concat([run] + rest) == run + Concat(rest);
      } else {
        assert [] + rest == rest;
      }
    }
  }

  lemma WordsSpec(s: string)
    ensures forall w :: w in Words(s) ==> w != [] && forall c :: c in w ==> IsWordChar(c)
    ensures Concat(Words(s)) == Filter(s, IsWordChar)
  {
    WordsFromShape(s, []);
    WordsFromKeepWordChars(s, []);
  }

  /** A non-word character ends a word: the words of `a b` are those of `a`, then those
      of `b`. */
  lemma {:induction false} WordsFromSplit(a: string, run: string, c: char, b: string)
    requires !IsWordChar(c)
    ensures WordsFrom(a + [c] + b, run) == WordsFrom(a, run) + WordsFrom(b, [])
    decreases |a|
  {
    if a == [] {
      assert [c] + b == a + [c] + b;
      assert ([c] + b)[1..] == b;
    } else {
      assert (a + [c] + b)[1..] == a[1..] + [c] + b;
      if IsWordChar(a[0]) {
        WordsFromSplit(a[1..], run + [a[0]], c, b);
      } else {
        WordsFromSplit(a[1..], [], c, b);
      }
    }
  }

  /** `{tok.lower() for tok in words}`. */
  function LowerSet(words: seq<string>): set<string> {
    if words == [] then {} else {Lower(words[0])} + LowerSet(words[1..])
  }

  /** The tokens are the lower-cased words, each once. */
  lemma {:induction false} LowerSetSpec(words: seq<string>)
    ensures forall t :: t in LowerSet(words) <==> exists w :: w in words && Lower(w) == t
    decreases |words|
  {
    if words != [] {
      LowerSetSpec(words[1..]);
      assert forall w :: w in words <==> w == words[0] || w in words[1..];
    }
  }

  /** The tokens of two lists of words together are the tokens of each. */
  lemma {:induction false} LowerSetConcat(a: seq<string>, b: seq<string>)
    ensures LowerSet(a + b) == LowerSet(a) + LowerSet(b)
    decreases |a|
  {
    if a != [] {
      assert (a + b)[1..] == a[1..] + b;
      LowerSetConcat(a[1..], b);
    } else {
      assert a + b == b;
    }
  }

  /** `_tokenize`: the set of lower-cased words. */
  function Tokenize(text: string): set<string> {
    LowerSet(Words(text))
  }

  /** Tokens are sets: a text repeated after a space has the same tokens, so repeated
      words count once. */
  lemma RepeatedWordsCountOnce(text: string)
    ensures Tokenize(text + " " + text) == Tokenize(text)
  {
    WordsFromSplit(text, [], ' ', text);
    assert text + " " + text == text + [' '] + text;
    LowerSetConcat(Words(text), Words(text));
  }

  /** A corpus node. */
  datatype Node = Node(text: string, nodeId: string)

  /** The tokens scored for `node`: the cached set for its id if there is one. */
  function TokensOf(node: Node, cache: map<string, set<string>>): set<string> {
    if node.nodeId in cache then cache[node.nodeId] else Tokenize(node.text)
  }

  /** The cache after `_node_tokens` has been asked for each of `nodes` in order. */
  function CacheAfter(nodes: seq<Node>, cache: map<string, set<string>>): map<string, set<string>> {
    if nodes == [] then cache
    else
      var before := CacheAfter(nodes[..|nodes| - 1], cache);
      var node := nodes[|nodes| - 1];
      if node.nodeId in before then before else before[node.nodeId := Tokenize(node.text)]
  }

  /** `[(len(q_tokens & self._node_tokens(n)), n) for n in self._nodes]`. */
  function Scored(nodes: seq<Node>, cache: map<string, set<string>>, query: set<string>): (r: seq<(nat, Node)>)
    ensures |r| == |nodes|
  {
    if nodes == [] then []
    else
      var node := nodes[|nodes| - 1];
      var prefix := nodes[..|nodes| - 1];
      Scored(prefix, cache, query) + [(|query * TokensOf(node, CacheAfter(prefix, cache))|, node)]
  }

  /** `key=lambda t: t[0]` with `reverse=True`. */
  function ByScore(): ((nat, Node), (nat, Node)) -> bool {
    (a: (nat, Node), b: (nat, Node)) => a.0 >= b.0
  }

  lemma ByScoreTotal()
    ensures TotalPreorder(ByScore())
  {
  }

  /** The nodes of a scored list. */
  function NodesOf(s: seq<(nat, Node)>): (r: seq<Node>)
    ensures |r| == |s|
    ensures forall i :: 0 <= i < |s| ==> r[i] == s[i].1
  {
    seq(|s|, i requires 0 <= i < |s| => s[i].1)
  }

  /** The answer of `retrieve(query, top_k)` given the cache it starts with. */
  function Retrieved(nodes: seq<Node>, cache: map<string, set<string>>, query: string, topK: int): seq<Node> {
    NodesOf(PyPrefix(Sort(ByScore(), Scored(nodes, cache, Tokenize(query))), topK))
  }

  /** `KeywordOverlapRetriever`: the corpus and the per-id token cache. */
  class Retriever {
    var nodes: seq<Node>
    var cache: map<string, set<string>>

    constructor(nodes: seq<Node>)
      ensures this.nodes == nodes && cache == map[]
    {
      this.nodes, cache := nodes, map[];
    }

    /** `_node_tokens`: tokenises a node the first time its id is seen, and answers from
        the cache afterwards. */
    method NodeTokens(node: Node) returns (tokens: set<string>)
      modifies this
      ensures tokens == TokensOf(node, old(cache))
      ensures cache == if node.nodeId in old(cache) then old(cache) else old(cache)[node.nodeId := tokens]
      ensures nodes == old(nodes)
    {
      if node.nodeId !in cache {
        cache := cache[node.nodeId := Tokenize(node.text)];
      }
      tokens := cache[node.nodeId];
    }

    /** `retrieve(query, top_k)`: scores every node, sorts stably by descending score and
        keeps the first `top_k`. */
    method Retrieve(query: string, topK: int) returns (result: seq<Node>)
      modifies this
      ensures result == Retrieved(old(nodes), old(cache), query, topK)
      ensures nodes == old(nodes) && cache == CacheAfter(nodes, old(cache))
    {
      var queryTokens := Tokenize(query);
      var corpus := nodes;
      ghost var start := cache;
      var scored: seq<(nat, Node)> := [];
      for i := 0 to |corpus|
        invariant nodes == corpus
        invariant scored == Scored(corpus[..i], start, queryTokens)
        invariant cache == CacheAfter(corpus[..i], start)
      {
        ScoredStep(corpus, start, queryTokens, i);
        var tokens := NodeTokens(corpus[i]);
        scored := scored + [(|queryTokens * tokens|, corpus[i])];
      }
      assert corpus[..|corpus|] == corpus;
      scored := Sort(ByScore(), scored);
      result := NodesOf(PyPrefix(scored, topK));
    }
  }

  /** Scoring one more node appends its score and may cache its tokens. */
  lemma ScoredStep(nodes: seq<Node>, cache: map<string, set<string>>, query: set<string>, i: nat)
    requires i < |nodes|
    ensures var before := CacheAfter(nodes[..i], cache);
            && Scored(nodes[..i + 1], cache, query) ==
                 Scored(nodes[..i], cache, query) + [(|query * TokensOf(nodes[i], before)|, nodes[i])]
            && CacheAfter(nodes[..i + 1], cache) ==
                 if nodes[i].nodeId in before then before else before[nodes[i].nodeId := Tokenize(nodes[i].text)]
  {
    var grown, prefix := nodes[..i + 1], nodes[..i];
    assert |grown| == i + 1 && grown[..i] == prefix && grown[i] == nodes[i];
    var before := CacheAfter(prefix, cache);
    assert Scored(grown, cache, query) == Scored(prefix, cache, query) + [(|query * TokensOf(nodes[i], before)|, nodes[i])];
    assert CacheAfter(grown, cache) ==
             if nodes[i].nodeId in before then before else before[nodes[i].nodeId := Tokenize(nodes[i].text)];
  }

  /** `retrieve` returns `top_k` nodes, or all of them when there are fewer; a negative
      `top_k` drops that many from the end, as the slice does. */
  lemma RetrievedLength(nodes: seq<Node>, cache: map<string, set<string>>, query: string, topK: int)
    ensures topK >= 0 ==> |Retrieved(nodes, cache, query, topK)| == if topK < |nodes| then topK else |nodes|
    ensures topK < 0 ==> |Retrieved(nodes, cache, query, topK)| == if |nodes| + topK > 0 then |nodes| + topK else 0
  {
  }

  /** The returned nodes come in non-increasing score order, nodes with equal scores in
      corpus order, and each is a scored node of the corpus. */
  lemma RetrievedRanked(nodes: seq<Node>, cache: map<string, set<string>>, query: string, topK: int)
    ensures var ranked := Sort(ByScore(), Scored(nodes, cache, Tokenize(query)));
            && SortedDesc(ByScore(), PyPrefix(ranked, topK))
            && SameTieOrder(ByScore(), ranked, Scored(nodes, cache, Tokenize(query)))
            && Retrieved(nodes, cache, query, topK) == NodesOf(ranked[..|PyPrefix(ranked, topK)|])
            && multiset(ranked) == multiset(Scored(nodes, cache, Tokenize(query)))
  {
    var ranked := Sort(ByScore(), Scored(nodes, cache, Tokenize(query)));
    ByScoreTotal();
    SortSorted(ByScore(), Scored(nodes, cache, Tokenize(query)));
    SortStable(ByScore(), Scored(nodes, cache, Tokenize(query)));
  }

  /** The position of the first node carrying `id`, or `|nodes|` when none does. */
  function FirstWithId(nodes: seq<Node>, id: string): (k: nat)
    ensures k <= |nodes|
    ensures k < |nodes| ==> nodes[k].nodeId == id
    ensures forall j :: 0 <= j < k ==> nodes[j].nodeId != id
    decreases |nodes|
  {
    if nodes == [] then 0
    else if nodes[0].nodeId == id then 0
    else 1 + FirstWithId(nodes[1..], id)
  }

  /** The tokens `_node_tokens` caches for `id` when the corpus is asked in order: those
      of the first node carrying it. */
  function FirstTokens(nodes: seq<Node>, id: string): set<string> {
    var k := FirstWithId(nodes, id);
    if k < |nodes| then Tokenize(nodes[k].text) else {}
  }

  /** Every cached id of a corpus node holds the tokens of the first node carrying it. */
  predicate CachedFirst(cache: map<string, set<string>>, nodes: seq<Node>) {
    forall i :: 0 <= i < |nodes| && nodes[i].nodeId in cache ==> cache[nodes[i].nodeId] == FirstTokens(nodes, nodes[i].nodeId)
  }

  /** A node's first owner lies in every prefix that holds the node. */
  lemma FirstTokensPrefix(nodes: seq<Node>, n: nat, i: nat)
    requires i < n <= |nodes|
    ensures FirstTokens(nodes[..n], nodes[i].nodeId) == FirstTokens(nodes, nodes[i].nodeId)
  {
    var id, prefix := nodes[i].nodeId, nodes[..n];
    var k, k' := FirstWithId(nodes, id), FirstWithId(prefix, id);
    assert k <= i;
    assert forall j :: 0 <= j < n ==> prefix[j] == nodes[j];
    assert k' == k;
  }

  /** A cache that holds first owners' tokens still does for the corpus without its last
      node. */
  lemma PrefixCachedFirst(nodes: seq<Node>, cache: map<string, set<string>>)
    requires nodes != [] && CachedFirst(cache, nodes)
    ensures CachedFirst(cache, nodes[..|nodes| - 1])
  {
    var prefix := nodes[..|nodes| - 1];
    forall i | 0 <= i < |prefix| && prefix[i].nodeId in cache
      ensures cache[prefix[i].nodeId] == FirstTokens(prefix, prefix[i].nodeId) {
      assert prefix[i] == nodes[i];
      FirstTokensPrefix(nodes, |nodes| - 1, i);
    }
  }

  /** The last node is scored with its first owner's tokens. */
  lemma LastScoredFirst(nodes: seq<Node>, cache: map<string, set<string>>)
    requires nodes != [] && CachedFirst(cache, nodes)
    requires CachedFirst(CacheAfter(nodes[..|nodes| - 1], cache), nodes[..|nodes| - 1])
    ensures TokensOf(nodes[|nodes| - 1], CacheAfter(nodes[..|nodes| - 1], cache)) ==
              FirstTokens(nodes, nodes[|nodes| - 1].nodeId)
  {
    var n := |nodes| - 1;
    var prefix, id := nodes[..n], nodes[n].nodeId;
    var before := CacheAfter(prefix, cache);
    CacheAfterKeys(prefix, cache);
    if id in cache {
      assert before[id] == cache[id];
    } else if id in before {
      var i :| 0 <= i < n && prefix[i].nodeId == id;
      FirstTokensPrefix(nodes, n, i);
      assert prefix[i] == nodes[i];
    } else {
      forall j | 0 <= j < n ensures nodes[j].nodeId != id {
        assert prefix[j] == nodes[j];
      }
      assert FirstWithId(nodes, id) == n;
    }
  }

  /** Asking for the corpus in order keeps every cached id on its first owner's tokens;
      an empty cache, as each retriever starts with, trivially does. */
  lemma {:induction false} CacheStaysFirst(nodes: seq<Node>, cache: map<string, set<string>>)
    requires CachedFirst(cache, nodes)
    ensures CachedFirst(CacheAfter(nodes, cache), nodes)
    decreases |nodes|
  {
    if nodes != [] {
      var n := |nodes| - 1;
      var prefix := nodes[..n];
      PrefixCachedFirst(nodes, cache);
      CacheStaysFirst(prefix, cache);
      LastScoredFirst(nodes, cache);
      var before := CacheAfter(prefix, cache);
      var after := CacheAfter(nodes, cache);
      forall i | 0 <= i < |nodes| && nodes[i].nodeId in after
        ensures after[nodes[i].nodeId] == FirstTokens(nodes, nodes[i].nodeId) {
        if nodes[i].nodeId != nodes[n].nodeId {
          assert prefix[i] == nodes[i];
          FirstTokensPrefix(nodes, n, i);
        }
      }
    }
  }

  /** The last node is scored with its first owner's tokens, given only a cache that
      holds first owners' tokens for the whole corpus. */
  lemma LastTokensFirst(nodes: seq<Node>, cache: map<string, set<string>>)
    requires nodes != [] && CachedFirst(cache, nodes)
    ensures TokensOf(nodes[|nodes| - 1], CacheAfter(nodes[..|nodes| - 1], cache)) ==
              FirstTokens(nodes, nodes[|nodes| - 1].nodeId)
  {
    PrefixCachedFirst(nodes, cache);
    CacheStaysFirst(nodes[..|nodes| - 1], cache);
    LastScoredFirst(nodes, cache);
  }

  /** Whatever the ids, the `i`-th node's score is the number of question tokens it
      shares with the first node carrying its id, once the cache holds first owners'
      tokens. */
  lemma {:induction false} ScoredFirstAt(nodes: seq<Node>, cache: map<string, set<string>>, query: set<string>, i: nat)
    requires i < |nodes| && CachedFirst(cache, nodes)
    ensures Scored(nodes, cache, query)[i] == (|query * FirstTokens(nodes, nodes[i].nodeId)|, nodes[i])
    decreases |nodes|
  {
    var n := |nodes| - 1;
    ScoredUnfold(nodes, cache, query);
    if i == n {
      LastTokensFirst(nodes, cache);
    } else {
      PrefixCachedFirst(nodes, cache);
      ScoredFirstAt(nodes[..n], cache, query, i);
      FirstTokensPrefix(nodes, n, i);
    }
  }

  /** Every node's score is its overlap with its first owner's tokens. */
  lemma ScoresAreFirstOverlaps(nodes: seq<Node>, cache: map<string, set<string>>, query: set<string>)
    requires CachedFirst(cache, nodes)
    ensures forall i :: 0 <= i < |nodes| ==>
              Scored(nodes, cache, query)[i] == (|query * FirstTokens(nodes, nodes[i].nodeId)|, nodes[i])
  {
    forall i | 0 <= i < |nodes|
      ensures Scored(nodes, cache, query)[i] == (|query * FirstTokens(nodes, nodes[i].nodeId)|, nodes[i]) {
      ScoredFirstAt(nodes, cache, query, i);
    }
  }

  /** Scoring the corpus scores its prefix, then the last node against the cache the
      prefix leaves. */
  lemma ScoredUnfold(nodes: seq<Node>, cache: map<string, set<string>>, query: set<string>)
    requires nodes != []
    ensures var n := |nodes| - 1;
            forall i :: 0 <= i < n ==> Scored(nodes, cache, query)[i] == Scored(nodes[..n], cache, query)[i] && nodes[i] == nodes[..n][i]
    ensures var n := |nodes| - 1;
            Scored(nodes, cache, query)[n] == (|query * TokensOf(nodes[n], CacheAfter(nodes[..n], cache))|, nodes[n])
  {
  }

  /** No two nodes share an id. */
  predicate UniqueIds(nodes: seq<Node>) {
    forall i, j :: 0 <= i < j < |nodes| ==> nodes[i].nodeId != nodes[j].nodeId
  }

  /** With distinct ids every node is its own first owner, so its score is the number of
      distinct tokens it shares with the question. */
  lemma ScoresAreOverlaps(nodes: seq<Node>, cache: map<string, set<string>>, query: set<string>)
    requires UniqueIds(nodes) && CachedFirst(cache, nodes)
    ensures forall i :: 0 <= i < |nodes| ==> Scored(nodes, cache, query)[i] == (|query * Tokenize(nodes[i].text)|, nodes[i])
  {
    ScoresAreFirstOverlaps(nodes, cache, query);
    forall i | 0 <= i < |nodes| ensures FirstWithId(nodes, nodes[i].nodeId) == i {
      var k := FirstWithId(nodes, nodes[i].nodeId);
      assert !(k < i);
    }
  }

  /** The cache grows by the ids asked for and nothing else. */
  lemma {:induction false} CacheAfterKeys(nodes: seq<Node>, cache: map<string, set<string>>)
    ensures forall id :: id in CacheAfter(nodes, cache) <==>
              id in cache || exists i :: 0 <= i < |nodes| && nodes[i].nodeId == id
    ensures forall id :: id in cache ==> CacheAfter(nodes, cache)[id] == cache[id]
    decreases |nodes|
  {
    if nodes != [] {
      var n := |nodes| - 1;
      CacheAfterKeys(nodes[..n], cache);
      forall id | id in CacheAfter(nodes, cache) && id !in cache
        ensures exists i :: 0 <= i < |nodes| && nodes[i].nodeId == id {
        if id != nodes[n].nodeId {
          var i :| 0 <= i < n && nodes[..n][i].nodeId == id;
          assert nodes[i] == nodes[..n][i];
        }
      }
      forall id, i | 0 <= i < n && nodes[i].nodeId == id
        ensures id in CacheAfter(nodes[..n], cache) {
        assert nodes[..n][i] == nodes[i];
      }
    }
  }

  /** A second node with an id already cached is scored with the FIRST node's tokens. */
  lemma SharedIdScoresFirstText(first: Node, second: Node, query: set<string>)
    requires first.nodeId == second.nodeId
    ensures Scored([first, second], map[], query)[1].0 == |query * Tokenize(first.text)|
  {
    assert [first, second][..1] == [first];
    assert [first][..0] == [];
  }

  /** A JSON value, as far as the loop looks at it. */
  datatype Json = JString(s: string) | JOther

  datatype EvalError = DecodeError | KeyError | TypeError

  /** The keys a question may be stored under, in the order they are tried. */
  const QuestionKeys: seq<string> := ["user_input", "question", "query"]

  /** `_extract_question`. */
  function ExtractQuestion(obj: map<string, Json>): Result<Json, EvalError> {
    if "user_input" in obj then Ok(obj["user_input"])
    else if "question" in obj then Ok(obj["question"])
    else if "query" in obj then Ok(obj["query"])
    else Err(KeyError)
  }

  /** The question is the value of the first of the keys present, and a `KeyError` when
      none is. */
  lemma ExtractQuestionSpec(obj: map<string, Json>)
    ensures ExtractQuestion(obj).Err? <==> forall k :: k in QuestionKeys ==> k !in obj
    ensures ExtractQuestion(obj).Err? ==> ExtractQuestion(obj).error == KeyError
    ensures ExtractQuestion(obj).Ok? ==>
              exists i :: 0 <= i < |QuestionKeys| && QuestionKeys[i] in obj &&
                          ExtractQuestion(obj).value == obj[QuestionKeys[i]] &&
                          forall j :: 0 <= j < i ==> QuestionKeys[j] !in obj
  {
    if "user_input" in obj {
      assert QuestionKeys[0] in obj;
    } else if "question" in obj {
      assert QuestionKeys[1] in obj && QuestionKeys[0] !in obj;
    } else if "query" in obj {
      assert QuestionKeys[2] in obj && QuestionKeys[0] !in obj && QuestionKeys[1] !in obj;
    }
  }

  /** `sum(bool(q_tokens & _tokenize(ctx)) for ctx in ctxs)`. */
  function Hits(query: set<string>, contexts: seq<string>): (n: nat)
    ensures n <= |contexts|
  {
    if contexts == [] then 0
    else (if query * Tokenize(contexts[0]) != {} then 1 else 0) + Hits(query, contexts[1..])
  }

  /** `hits / len(ctxs) if ctxs else 0.0`. */
  function Precision(query: set<string>, contexts: seq<string>): real {
    if contexts == [] then 0.0 else Hits(query, contexts) as real / |contexts| as real
  }

  /** Hits counts the contexts sharing a word with the question. */
  lemma {:induction false} HitsCount(query: set<string>, contexts: seq<string>)
    ensures Hits(query, contexts) == |Filter(contexts, (c: string) => query * Tokenize(c) != {})|
    decreases |contexts|
  {
    if contexts != [] {
      HitsCount(query, contexts[1..]);
    }
  }

  /** Context precision lies between 0 and 1; it is 0 with no contexts or no hit, and 1
      exactly when there are contexts and every one of them is a hit. */
  lemma PrecisionBounds(query: set<string>, contexts: seq<string>)
    ensures 0.0 <= Precision(query, contexts) <= 1.0
    ensures Precision(query, contexts) == 0.0 <==> contexts == [] || Hits(query, contexts) == 0
    ensures Precision(query, contexts) == 1.0 <==> contexts != [] && Hits(query, contexts) == |contexts|
  {
    if contexts != [] {
      RatioBounds(Hits(query, contexts), |contexts|);
    }
  }

  /** The ratio of a count to a positive total it does not exceed. */
  lemma RatioBounds(h: nat, n: nat)
    requires 0 < n && h <= n
    ensures 0.0 <= h as real / n as real <= 1.0
    ensures h as real / n as real == 0.0 <==> h == 0
    ensures h as real / n as real == 1.0 <==> h == n
  {
    var q := h as real / n as real;
    assert q * n as real == h as real;
    assert q <= 1.0 by {
      assert (1.0 - q) * n as real == (n - h) as real;
    }
  }

  /** The trimmed non-blank input lines, in order; `trim` is `str.strip`. */
  function NonBlank(lines: seq<string>, trim: string -> string): (r: seq<string>)
    ensures |r| <= |lines|
  {
    if lines == [] then []
    else
      var prev := NonBlank(lines[..|lines| - 1], trim);
      if trim(lines[|lines| - 1]) == [] then prev else prev + [trim(lines[|lines| - 1])]
  }

  lemma NonBlankPrefix(lines: seq<string>, trim: string -> string, i: nat)
    requires i < |lines|
    ensures NonBlank(lines[..i + 1], trim) ==
              NonBlank(lines[..i], trim) + (if trim(lines[i]) == [] then [] else [trim(lines[i])])
  {
    assert lines[..i + 1][..i] == lines[..i];
  }

  /** The non-blank lines of a prefix are a prefix of the non-blank lines. */
  lemma {:induction false} NonBlankGrows(lines: seq<string>, trim: string -> string, n: nat)
    requires n <= |lines|
    ensures |NonBlank(lines[..n], trim)| <= |NonBlank(lines, trim)|
    ensures NonBlank(lines[..n], trim) == NonBlank(lines, trim)[..|NonBlank(lines[..n], trim)|]
    decreases |lines| - n
  {
    if n < |lines| {
      NonBlankGrows(lines, trim, n + 1);
      NonBlankPrefix(lines, trim, n);
      var a, b, c := NonBlank(lines[..n], trim), NonBlank(lines[..n + 1], trim), NonBlank(lines, trim);
      assert |a| <= |b| && b[..|a|] == a;
      assert c[..|a|] == b[..|a|];
    } else {
      assert lines[..n] == lines;
    }
  }

  /** A non-blank line sits in the non-blank lines right after those before it. */
  lemma NonBlankAt(lines: seq<string>, trim: string -> string, i: nat)
    requires i < |lines| && trim(lines[i]) != []
    ensures |NonBlank(lines[..i], trim)| < |NonBlank(lines, trim)|
    ensures NonBlank(lines, trim)[|NonBlank(lines[..i], trim)|] == trim(lines[i])
    ensures forall j :: 0 <= j < |NonBlank(lines[..i], trim)| ==>
              NonBlank(lines, trim)[j] == NonBlank(lines[..i], trim)[j]
  {
    NonBlankPrefix(lines, trim, i);
    NonBlankGrows(lines, trim, i + 1);
    var before, after, all := NonBlank(lines[..i], trim), NonBlank(lines[..i + 1], trim), NonBlank(lines, trim);
    assert all[..|after|] == after;
    assert forall j :: 0 <= j < |after| ==> all[j] == after[j];
  }

  /** One output line: the input object with the retrieved contexts and their
      precision. */
  datatype Output = Output(record: map<string, Json>, contexts: seq<string>, precision: real)

  /** The error one non-blank line raises before anything is written for it, if any. */
  function LineError(line: string, decode: string -> Option<map<string, Json>>): Option<EvalError> {
    match decode(line)
    case None => Some(DecodeError)
    case Some(obj) =>
      match ExtractQuestion(obj)
      case Err(e) => Some(e)
      case Ok(q) => if q.JString? then None else Some(TypeError)
  }

  /** The texts of the retrieved nodes. */
  function Texts(nodes: seq<Node>): (r: seq<string>)
    ensures |r| == |nodes|
    ensures forall i :: 0 <= i < |nodes| ==> r[i] == nodes[i].text
  {
    seq(|nodes|, i requires 0 <= i < |nodes| => nodes[i].text)
  }

  /** A cache holding first owners' tokens answers as an empty one does. */
  lemma CachedFirstAnswersAlike(nodes: seq<Node>, cache: map<string, set<string>>, query: string, topK: int)
    requires CachedFirst(cache, nodes)
    ensures Retrieved(nodes, cache, query, topK) == Retrieved(nodes, map[], query, topK)
  {
    ScoresAreFirstOverlaps(nodes, cache, Tokenize(query));
    ScoresAreFirstOverlaps(nodes, map[], Tokenize(query));
    assert Scored(nodes, cache, Tokenize(query)) == Scored(nodes, map[], Tokenize(query));
  }

  /** `out` is what the loop writes for the non-blank line `line`: the decoded object,
      the texts of the retrieved nodes and their precision. */
  ghost predicate Answered(line: string, out: Output, nodes: seq<Node>,
                           decode: string -> Option<map<string, Json>>, topK: int)
  {
    && LineError(line, decode).None?
    && decode(line) == Some(out.record)
    && var question := ExtractQuestion(out.record).value.s;
    && |out.contexts| == |PyPrefix(nodes, topK)|
    && out.contexts == Texts(Retrieved(nodes, map[], question, topK))
    && out.precision == Precision(Tokenize(question), out.contexts)
  }

  /** The body of the loop for one non-blank line. */
  method Answer(retriever: Retriever, raw: string, decode: string -> Option<map<string, Json>>, topK: int)
    returns (out: Result<Output, EvalError>)
    requires CachedFirst(retriever.cache, retriever.nodes)
    modifies retriever
    ensures retriever.nodes == old(retriever.nodes)
    ensures out.Err? <==> LineError(raw, decode).Some?
    ensures out.Err? ==> out.error == LineError(raw, decode).value
    ensures out.Ok? ==> Answered(raw, out.value, retriever.nodes, decode, topK)
    ensures CachedFirst(retriever.cache, retriever.nodes)
  {
    var decoded := decode(raw);
    if decoded.None? {
      return Err(DecodeError);
    }
    var obj := decoded.value;
    var extracted := ExtractQuestion(obj);
    if extracted.Err? {
      return Err(extracted.error);
    }
    if !extracted.value.JString? {
      return Err(TypeError);
    }
    var question := extracted.value.s;
    ghost var cache := retriever.cache;
    var found := retriever.Retrieve(question, topK);
    var contexts := Texts(found);
    RetrievedLength(retriever.nodes, cache, question, topK);
    CachedFirstAnswersAlike(retriever.nodes, cache, question, topK);
    CacheStaysFirst(retriever.nodes, cache);
    out := Ok(Output(obj, contexts, Precision(Tokenize(question), contexts)));
  }

  /** `written` holds one answer per non-blank line of `lines`, in order. */
  ghost predicate AllAnswered(written: seq<Output>, lines: seq<string>, nodes: seq<Node>,
                              decode: string -> Option<map<string, Json>>, topK: int)
  {
    && |written| == |NonBlank(lines, Strip)|
    && forall j :: 0 <= j < |written| ==> Answered(NonBlank(lines, Strip)[j], written[j], nodes, decode, topK)
  }

  /** Reading one more line keeps one answer per non-blank line. */
  lemma AnsweredStep(written: seq<Output>, lines: seq<string>, i: nat, out: Option<Output>, nodes: seq<Node>,
                     decode: string -> Option<map<string, Json>>, topK: int)
    requires i < |lines| && AllAnswered(written, lines[..i], nodes, decode, topK)
    requires out.None? <==> Strip(lines[i]) == []
    requires out.Some? ==> Answered(Strip(lines[i]), out.value, nodes, decode, topK)
    ensures AllAnswered(written + (if out.Some? then [out.value] else []), lines[..i + 1], nodes, decode, topK)
  {
    NonBlankPrefix(lines, Strip, i);
    var before, after := NonBlank(lines[..i], Strip), NonBlank(lines[..i + 1], Strip);
    var grown := written + (if out.Some? then [out.value] else []);
    assert |grown| == |after|;
    forall j | 0 <= j < |grown| ensures Answered(after[j], grown[j], nodes, decode, topK) {
      if j < |written| {
        assert after[j] == before[j] && grown[j] == written[j];
      } else {
        assert after[j] == Strip(lines[i]) && grown[j] == out.value;
      }
    }
  }

  /** The per-question loop of `evaluate`, with a fresh keyword retriever over `nodes`
      as the source of contexts. Lines already written stay written when a later line
      raises. */
  method Evaluate(nodes: seq<Node>, lines: seq<string>, decode: string -> Option<map<string, Json>>, topK: int)
    returns (written: seq<Output>, failure: Option<EvalError>)
    ensures failure.None? ==> |written| == |NonBlank(lines, Strip)|
    ensures failure.Some? ==> |written| < |NonBlank(lines, Strip)| &&
                              LineError(NonBlank(lines, Strip)[|written|], decode) == failure
    ensures forall j :: 0 <= j < |written| ==>
              Answered(NonBlank(lines, Strip)[j], written[j], nodes, decode, topK)
  {
    var retriever := new Retriever(nodes);
    written, failure := [], None;
    for i := 0 to |lines|
      invariant retriever.nodes == nodes
      invariant CachedFirst(retriever.cache, nodes)
      invariant AllAnswered(written, lines[..i], nodes, decode, topK)
    {
      var raw := Strip(lines[i]);
      if raw == [] {
        AnsweredStep(written, lines, i, None, nodes, decode, topK);
        continue;
      }
      var out := Answer(retriever, raw, decode, topK);
      if out.Err? {
        FailureAt(written, lines, i, nodes, decode, topK);
        return written, Some(out.error);
      }
      AnsweredStep(written, lines, i, Some(out.value), nodes, decode, topK);
      written := written + [out.value];
    }
    AllLines(written, lines, nodes, decode, topK);
  }

  /** A failing line is the first non-blank line without an answer. */
  lemma FailureAt(written: seq<Output>, lines: seq<string>, i: nat, nodes: seq<Node>,
                  decode: string -> Option<map<string, Json>>, topK: int)
    requires i < |lines| && Strip(lines[i]) != [] && AllAnswered(written, lines[..i], nodes, decode, topK)
    ensures |written| < |NonBlank(lines, Strip)| && NonBlank(lines, Strip)[|written|] == Strip(lines[i])
    ensures forall j :: 0 <= j < |written| ==> Answered(NonBlank(lines, Strip)[j], written[j], nodes, decode, topK)
  {
    NonBlankAt(lines, Strip, i);
  }

  /** Once every line is read, every non-blank line has its answer. */
  lemma AllLines(written: seq<Output>, lines: seq<string>, nodes: seq<Node>,
                 decode: string -> Option<map<string, Json>>, topK: int)
    requires AllAnswered(written, lines[..|lines|], nodes, decode, topK)
    ensures |written| == |NonBlank(lines, Strip)|
    ensures forall j :: 0 <= j < |written| ==> Answered(NonBlank(lines, Strip)[j], written[j], nodes, decode, topK)
  {
    assert lines[..|lines|] == lines;
  }
}
