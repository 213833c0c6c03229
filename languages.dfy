/** `get_all_languages`: the query's bindings folded, in order, into an
    insertion-ordered dictionary keyed by language label. */
module Languages {

  /** The three values `get_all_languages` reads from one binding:
      `languageLabel`, `number_of_lexemes` and `languageCode`. */
  datatype Binding = Binding(languageLabel: string, total: string, code: string)

  /** `{"total": ..., "code": ...}` */
  datatype LanguageInfo = LanguageInfo(total: string, code: string)

  /** The OrderedDict `langs`: its keys in insertion order and the mapping. */
  datatype LanguageMap = LanguageMap(order: seq<string>, entries: map<string, LanguageInfo>) {
    ghost predicate Valid() {
      && (forall i, j :: 0 <= i < j < |order| ==> order[i] != order[j])
      && (forall k :: k in entries <==> k in order)
    }
  }

  /** `d[key] = value`: a new key goes to the end, an existing key keeps
      its place and gets the new value. */
  function Insert(d: LanguageMap, key: string, value: LanguageInfo): (r: LanguageMap)
    requires d.Valid()
    ensures r.Valid()
    ensures r.order == if key in d.entries then d.order else d.order + [key]
    ensures r.entries == d.entries[key := value]
  {
    if key in d.entries then LanguageMap(d.order, d.entries[key := value])
    else LanguageMap(d.order + [key], d.entries[key := value])
  }

  function InfoOf(b: Binding): LanguageInfo {
    LanguageInfo(b.total, b.code)
  }

  /** The index of the first binding with label `lang`, or -1 if there is
      none. */
  function FirstIndexOf(bs: seq<Binding>, lang: string): (r: int)
    ensures -1 <= r < |bs|
    ensures r == -1 <==> forall i :: 0 <= i < |bs| ==> bs[i].languageLabel != lang
    ensures r >= 0 ==> bs[r].languageLabel == lang && forall i :: 0 <= i < r ==> bs[i].languageLabel != lang
    decreases |bs|
  {
    if bs == [] then -1
    else
      var prefix := bs[..|bs| - 1];
      assert forall i :: 0 <= i < |prefix| ==> prefix[i] == bs[i];
      var k := FirstIndexOf(prefix, lang);
      if k >= 0 then k
      else if bs[|bs| - 1].languageLabel == lang then |bs| - 1
      else -1
  }

  /** The labels of the bindings, each once, in order of first appearance. */
  function DistinctLabels(bs: seq<Binding>): (r: seq<string>)
    ensures forall i, j :: 0 <= i < j < |r| ==> r[i] != r[j]
    ensures forall k :: k in r <==> exists i :: 0 <= i < |bs| && bs[i].languageLabel == k
    ensures forall i, j :: 0 <= i < j < |r| ==> FirstIndexOf(bs, r[i]) < FirstIndexOf(bs, r[j])
    decreases |bs|
  {
    if bs == [] then []
    else
      var prefix := bs[..|bs| - 1];
      var d := DistinctLabels(prefix);
      var last := bs[|bs| - 1].languageLabel;
      assert forall i :: 0 <= i < |prefix| ==> prefix[i] == bs[i];
      if last in d then d else d + [last]
  }

  /** The index of the last binding with label `languageLabel`, or -1 if
      there is none. */
  function LastIndexOf(bs: seq<Binding>, languageLabel: string): (r: int)
    ensures -1 <= r < |bs|
    ensures r == -1 <==> forall i :: 0 <= i < |bs| ==> bs[i].languageLabel != languageLabel
    ensures r >= 0 ==> bs[r].languageLabel == languageLabel && forall i :: r < i < |bs| ==> bs[i].languageLabel != languageLabel
    decreases |bs|
  {
    if bs == [] then -1
    else if bs[|bs| - 1].languageLabel == languageLabel then |bs| - 1
    else
      var prefix := bs[..|bs| - 1];
      assert forall i :: 0 <= i < |prefix| ==> prefix[i] == bs[i];
      LastIndexOf(prefix, languageLabel)
  }

  /** Runs the loop of `get_all_languages` over `bindings`: the keys are the
      distinct labels in order of first appearance, and each label maps to
      the total and code of the LAST binding carrying it. */
  method GetAllLanguages(bindings: seq<Binding>) returns (langs: LanguageMap)
    ensures langs.Valid()
    ensures langs.order == DistinctLabels(bindings)
    ensures forall lang :: lang in langs.entries <==> LastIndexOf(bindings, lang) >= 0
    ensures forall lang :: lang in langs.entries ==>
      langs.entries[lang] == InfoOf(bindings[LastIndexOf(bindings, lang)])
  {
    langs := LanguageMap([], map[]);
    for n := 0 to |bindings|
      invariant langs.Valid()
      invariant langs.order == DistinctLabels(bindings[..n])
      invariant forall lang :: lang in langs.entries <==> LastIndexOf(bindings[..n], lang) >= 0
      invariant forall lang :: lang in langs.entries ==>
        langs.entries[lang] == InfoOf(bindings[..n][LastIndexOf(bindings[..n], lang)])
    {
      var el := bindings[n];
      assert bindings[..n + 1][..n] == bindings[..n];
      langs := Insert(langs, el.languageLabel, InfoOf(el));
    }
    assert bindings[..|bindings|] == bindings;
  }
}
