/** The GET side of the `add` and `user` routes: pick one candidate lexeme
    from the query's bindings and the values the lemma page is rendered
    with. The random pick is the `index` input. */
module LexemePages {
  import opened Wrappers
  import opened Errors
  import opened PyStrings

  /** A binding of the per-language query: `l` is the lexeme's entity URI,
      `posLabel` comes from an OPTIONAL block and may be unbound. */
  datatype LanguageBinding = LanguageBinding(l: string, lemmaText: string, posLabel: Option<string>)

  /** A binding of the per-user query. */
  datatype UserBinding = UserBinding(lexeme: string, lemmas: string, languageCode: string,
                                     lexicalCategoryLabel: string)

  /** What `show_lemma_page` renders. */
  datatype LemmaPage = LemmaPage(lemmaText: string, lang: string, wordId: string, pos: string)

  /** The `wd:` namespace of entity URIs. */
  const EntityNamespace: string := "http://www.wikidata.org/entity"

  /** `add(lang)` on GET: `random.choice(words)` (it raises on an empty
      list, so the pick needs one), then `random_word["posLabel"]`, a
      KeyError when the binding has no part of speech. */
  function AddPage(lang: string, words: seq<LanguageBinding>, index: nat): (r: Result<LemmaPage, PyError>)
    requires index < |words|
    ensures r.Err? <==> words[index].posLabel.None?
    ensures r.Err? ==> r.error == KeyError("posLabel")
    ensures r.Ok? ==>
      r.value.lemmaText == words[index].lemmaText && r.value.lang == lang && r.value.pos == words[index].posLabel.value
    ensures r.Ok? ==> '/' !in r.value.wordId && IsLastField(words[index].l, r.value.wordId, '/')
  {
    var word := words[index];
    var wordId := LastSegment(word.l);
    match word.posLabel
    case None => Err(KeyError("posLabel"))
    case Some(pos) => Ok(LemmaPage(word.lemmaText, lang, wordId, pos))
  }

  /** `user(user_name)` on GET. */
  function UserPage(words: seq<UserBinding>, index: nat): (r: LemmaPage)
    requires index < |words|
    ensures r.lemmaText == words[index].lemmas && r.lang == words[index].languageCode
      && r.pos == words[index].lexicalCategoryLabel
    ensures '/' !in r.wordId && IsLastField(words[index].lexeme, r.wordId, '/')
  {
    var word := words[index];
    LemmaPage(word.lemmas, word.languageCode, LastSegment(word.lexeme), word.lexicalCategoryLabel)
  }

  /** The page of a user's lexeme carries the lexeme's own id. */
  lemma UserPageIdIsLexemeId(words: seq<UserBinding>, index: nat, id: string)
    requires index < |words|
    requires words[index].lexeme == EntityNamespace + "/" + id && '/' !in id
    ensures UserPage(words, index).wordId == id
  {
    LastSegmentAfterSlash(EntityNamespace, id);
  }
}
