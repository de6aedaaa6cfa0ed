/** The rows the two client-side tables receive, as JavaScript sees them: an
    object per row whose properties are the selected columns. A property that
    is missing reads as `undefined`; a column that is SQL NULL arrives as `null`.
    The coercions a cell undergoes (`String(v)`, `Boolean(v)`, `Number(v)`,
    `new Date(v).getTime()`) depend on the engine's number and date parsers,
    so each cell carries their outcomes as data. */
module TableData {
  import opened Wrappers

  datatype Cell =
    | Undefined
    | Null
      /** A present value: `text` is `String(v)`, `truthy` is `Boolean(v)`,
          `num` is `Number(v)` (None for NaN), `time` is `new Date(v).getTime()`
          in milliseconds (None for an invalid date). */
    | Value(text: string, truthy: bool, num: Option<real>, time: Option<int>)
  {
    /** `v == null`, which holds of `undefined` as well. */
    predicate IsNullish() { this == Undefined || this == Null }

    /** `Boolean(v)`. */
    predicate Truthy() { Value? && truthy }
  }

  type Row = map<string, Cell>

  /** `r[key]`. */
  function Get(r: Row, key: string): (c: Cell)
    ensures key !in r ==> c == Undefined
  {
    if key in r then r[key] else Undefined
  }

  /** `String(v || '')`: the text of a truthy value, otherwise the empty string. */
  function TextOrEmpty(c: Cell): (s: string)
    ensures c.Truthy() ==> s == c.text
    ensures !c.Truthy() ==> s == []
  {
    if c.Truthy() then c.text else ""
  }

  /** `String(v ?? '')`: the text of any value that is neither null nor undefined. */
  function TextOrBlank(c: Cell): (s: string)
    ensures c.IsNullish() ==> s == []
    ensures c.Value? ==> s == c.text
  {
    if c.Value? then c.text else ""
  }

  const NAME := "NOME_PACIENTE"
  const CPF := "CPF_PACIENTE"
  const DATE := "DATA_AMOSTRA"
  const HEIGHT := "ALTURA_AMOSTRA"
  const WIDTH := "LARGURA_AMOSTRA"
  const THICKNESS := "ESPESSURA"
  const DOCTOR_NOTE := "ANOTACAO_MEDICO_AMOSTRA"
  const AI_NOTE := "ANOTACAO_IA_AMOSTRA"
}
