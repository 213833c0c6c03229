/** The edit sent to the write API: the payload `build_senses` makes from
    the submitted form and the summary `submit_lexeme` writes for it. */
module SensePayload {
  import opened Wrappers
  import opened Errors

  datatype Gloss = Gloss(language: string, value: string)

  /** One entry of "senses": `add` marks a new sense. */
  datatype SenseEdit = SenseEdit(add: string, glosses: map<string, Gloss>)

  datatype EditPayload = EditPayload(senses: seq<SenseEdit>)

  type Form = map<string, string>

  /** `build_senses(form_data, lang)`: KeyError when the form has no
      `sense` field. */
  function BuildSenses(form: Form, lang: string): (r: Result<EditPayload, PyError>)
    ensures r.Err? <==> "sense" !in form
    ensures r.Err? ==> r.error == KeyError("sense")
    ensures r.Ok? ==> |r.value.senses| == 1 && r.value.senses[0].add == ""
    ensures r.Ok? ==> r.value.senses[0].glosses.Keys == {lang}
    ensures r.Ok? ==> r.value.senses[0].glosses[lang] == Gloss(lang, form["sense"])
  {
    if "sense" !in form then Err(KeyError("sense"))
    else Ok(EditPayload([SenseEdit("", map[lang := Gloss(lang, form["sense"])])]))
  }

  /** `senses["senses"][0]["glosses"][lang]["value"]` */
  function GlossValue(payload: EditPayload, lang: string): string
    requires |payload.senses| > 0 && lang in payload.senses[0].glosses
  {
    payload.senses[0].glosses[lang].value
  }

  const SummaryPrefix: string := "Added sense: "

  /** `"Added sense: {}.".format(...)` over the payload's gloss. */
  function EditSummary(payload: EditPayload, lang: string): (r: string)
    requires |payload.senses| > 0 && lang in payload.senses[0].glosses
    ensures SummaryPrefix <= r && r[|r| - 1] == '.'
  {
    SummaryPrefix + GlossValue(payload, lang) + "."
  }

  /** The submitted text reaches the payload, and the summary, exactly as
      typed: nothing is trimmed or altered. */
  lemma SubmittedTextUnaltered(form: Form, lang: string)
    requires "sense" in form
    ensures var p := BuildSenses(form, lang).value;
      && GlossValue(p, lang) == form["sense"]
      && var summary := EditSummary(p, lang);
         summary[|SummaryPrefix|..|summary| - 1] == form["sense"]
  {
  }
}
