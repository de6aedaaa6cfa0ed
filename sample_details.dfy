/** The sample-details modal (resources/js/Components/SampleDetailsModal.jsx):
    the fields of one sample row, each shown as is or as a dash when it is
    null or undefined, and the image source chosen from the row's data URL,
    then the image route, then none. */
module SampleDetails {
  import opened Wrappers
  import TableData

  const IMAGE_URL := "IMAGEM_URL"
  const ID := "ID_AMOSTRA"
  const AI_NOTE := "ANOTACAO_IA_AMOSTRA"

  /** What an empty field shows. */
  const DASH := "—"
  const NO_IMAGE := "Nenhuma imagem disponível"

  /** The labelled fields of the grid, in order; the AI note follows them
      on a row of its own. */
  const FIELDS: seq<(string, string)> := [
    ("ID Amostra", "ID_AMOSTRA"),
    ("Data", "DATA_AMOSTRA"),
    ("Altura", "ALTURA_AMOSTRA"),
    ("Largura", "LARGURA_AMOSTRA"),
    ("Espessura", "ESPESSURA"),
    ("Anotação Médico", "ANOTACAO_MEDICO_AMOSTRA"),
    ("ID Paciente", "ID_PACIENTE"),
    ("Paciente", "NOME_PACIENTE"),
    ("CPF", "CPF_PACIENTE")
  ]
  const AI_NOTE_LABEL := "Anotação IA"

  /** A value interpolated into a template literal. */
  function Interpolated(c: TableData.Cell): string {
    match c
    case Undefined => "undefined"
    case Null => "null"
    case Value(text, _, _, _) => text
  }

  /** The global `route` helper: absent (not a function), or a function of
      the sample id that yields a URL or throws (None). */
  type RouteHelper = Option<TableData.Cell -> Option<string>>

  /** `getImageRoute(id)`: the helper's URL for `amostras.imagem` when the
      helper exists and does not throw, otherwise `/amostras/{id}/imagem`. */
  function ImageRoute(id: TableData.Cell, route: RouteHelper): (url: string)
    ensures route.Some? && route.value(id).Some? ==> url == route.value(id).value
    ensures route.None? || route.value(id).None? ==> url == "/amostras/" + Interpolated(id) + "/imagem"
  {
    if route.Some? && route.value(id).Some? then route.value(id).value
    else "/amostras/" + Interpolated(id) + "/imagem"
  }

  /** `imageSrc`: the row's `IMAGEM_URL` when truthy, else the image route
      when `ID_AMOSTRA` is truthy, else null. */
  function ImageSource(sample: TableData.Row, route: RouteHelper): (src: Option<string>)
    ensures src.Some? <==> TableData.Get(sample, IMAGE_URL).Truthy() || TableData.Get(sample, ID).Truthy()
  {
    var url := TableData.Get(sample, IMAGE_URL);
    var id := TableData.Get(sample, ID);
    if url.Truthy() then Some(url.text)
    else if id.Truthy() then Some(ImageRoute(id, route))
    else None
  }

  /** The order of preference: a data URL wins whatever the id; without
      one, a truthy id gives its route, which without a working helper is
      the `/amostras/{id}/imagem` path; with neither there is no image. */
  lemma ImageSourceChoice(sample: TableData.Row, route: RouteHelper)
    ensures TableData.Get(sample, IMAGE_URL).Truthy() ==>
      ImageSource(sample, route) == Some(TableData.Get(sample, IMAGE_URL).text)
    ensures !TableData.Get(sample, IMAGE_URL).Truthy() && TableData.Get(sample, ID).Truthy() ==>
      ImageSource(sample, route) == Some(ImageRoute(TableData.Get(sample, ID), route))
    ensures !TableData.Get(sample, IMAGE_URL).Truthy() && TableData.Get(sample, ID).Truthy() && route.None? ==>
      ImageSource(sample, route) == Some("/amostras/" + TableData.Get(sample, ID).text + "/imagem")
    ensures IMAGE_URL !in sample && ID !in sample ==> ImageSource(sample, route).None?
  {
  }

  /** `{v ?? '—'}`: null and undefined show the dash, every other value,
      falsy ones such as 0 or an empty string included, shows its own text. */
  function Shown(c: TableData.Cell): (s: string)
    ensures c.IsNullish() ==> s == DASH
    ensures c.Value? ==> s == c.text
  {
    if c.IsNullish() then DASH else c.text
  }

  /** Only a missing or null value is replaced: a zero stays visible,
      which `v || '—'` would have hidden. */
  lemma FalsyValuesShown(c: TableData.Cell)
    requires c.Value? && !c.Truthy()
    ensures Shown(c) == c.text
    ensures Shown(c) != DASH || c.text == DASH
  {
  }

  /** A labelled value of the modal. */
  datatype Detail = Detail(caption: string, shown: string)

  /** The image area: a picture with its alternative text, or the message. */
  datatype Picture = Picture(src: string, alt: string) | NoPicture(message: string)

  datatype View = View(details: seq<Detail>, picture: Picture)

  /** The grid: one entry per field, then the AI note. */
  function Details(sample: TableData.Row): (ds: seq<Detail>)
    ensures |ds| == |FIELDS| + 1
    ensures forall k :: 0 <= k < |FIELDS| ==>
      ds[k] == Detail(FIELDS[k].0, Shown(TableData.Get(sample, FIELDS[k].1)))
    ensures ds[|FIELDS|] == Detail(AI_NOTE_LABEL, Shown(TableData.Get(sample, AI_NOTE)))
  {
    seq(|FIELDS|, k requires 0 <= k < |FIELDS| => Detail(FIELDS[k].0, Shown(TableData.Get(sample, FIELDS[k].1))))
      + [Detail(AI_NOTE_LABEL, Shown(TableData.Get(sample, AI_NOTE)))]
  }

  /** What the modal renders: nothing while closed; otherwise the details,
      and the image with text `Amostra {id}` (empty for a falsy id) or the
      message that there is no image. `imageSrc ? … : …` tests truthiness,
      so an empty URL from the route helper shows the message too. */
  function Render(open: bool, sample: TableData.Row, route: RouteHelper): (v: Option<View>)
    ensures !open <==> v.None?
    ensures v.Some? ==> v.value.details == Details(sample)
    ensures v.Some? ==> (v.value.picture.NoPicture? <==>
      ImageSource(sample, route).None? || ImageSource(sample, route).value == "")
    ensures v.Some? && v.value.picture.NoPicture? ==> v.value.picture.message == NO_IMAGE
    ensures v.Some? && v.value.picture.Picture? ==>
      && Some(v.value.picture.src) == ImageSource(sample, route)
      && v.value.picture.src != ""
      && v.value.picture.alt == "Amostra " + TableData.TextOrEmpty(TableData.Get(sample, ID))
  {
    if !open then None
    else
      var src := ImageSource(sample, route);
      var picture :=
        if src.Some? && src.value != "" then Picture(src.value, "Amostra " + TableData.TextOrEmpty(TableData.Get(sample, ID)))
        else NoPicture(NO_IMAGE);
      Some(View(Details(sample), picture))
  }

  /** A route helper that yields an empty URL leaves the sample without a
      picture: the modal shows the no-image message. */
  lemma EmptyRouteShowsMessage(sample: TableData.Row, f: TableData.Cell -> Option<string>)
    requires !TableData.Get(sample, IMAGE_URL).Truthy() && TableData.Get(sample, ID).Truthy()
    requires f(TableData.Get(sample, ID)) == Some("")
    ensures Render(true, sample, Some(f)) == Some(View(Details(sample), NoPicture(NO_IMAGE)))
  {
  }

  /** The modal without a sample (`sample = {}`): every field shows the
      dash and there is no image. */
  lemma EmptySample(route: RouteHelper)
    ensures var v := Render(true, map[], route);
      && v.Some?
      && (forall k :: 0 <= k < |v.value.details| ==> v.value.details[k].shown == DASH)
      && v.value.picture == NoPicture(NO_IMAGE)
  {
    var ds := Details(map[]);
    forall k | 0 <= k < |ds| ensures ds[k].shown == DASH {
      if k < |FIELDS| {
        assert TableData.Get(map[], FIELDS[k].1) == TableData.Undefined;
      }
    }
  }
}
