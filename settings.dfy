/**
 * The print settings object a request carries, field by field, and the
 * defaults the convert route merges in before validating it.
 */
module PrintSettings {
  import opened JsValues

  datatype Settings = Settings(
    pageSize: Value,
    orientation: Value,
    marginTop: Value,
    marginBottom: Value,
    marginLeft: Value,
    marginRight: Value,
    headerText: Value,
    footerText: Value,
    watermarkText: Value,
    enablePageNumbers: Value,
    enableTableOfContents: Value)

  /** A named property of the settings object, as the validators iterate them. */
  datatype Field = Field(name: string, value: Value)

  const ValidPageSizes: seq<string> := ["A4", "A3", "A5", "Letter", "Legal"]
  const ValidOrientations: seq<string> := ["portrait", "landscape"]

  /** An empty settings object `{}`. */
  const NoSettings: Settings := Settings(
    Undefined, Undefined, Undefined, Undefined, Undefined, Undefined,
    Undefined, Undefined, Undefined, Undefined, Undefined)

  /** `names.includes(v)`: only a string equal to one of the names. */
  predicate OneOf(v: Value, names: seq<string>) {
    v.Str? && v.s in names
  }

  /** The margin properties in the order both validators check them. */
  function MarginFields(st: Settings): seq<Field> {
    [Field("marginTop", st.marginTop), Field("marginBottom", st.marginBottom),
     Field("marginLeft", st.marginLeft), Field("marginRight", st.marginRight)]
  }

  function TextFields(st: Settings): seq<Field> {
    [Field("headerText", st.headerText), Field("footerText", st.footerText),
     Field("watermarkText", st.watermarkText)]
  }

  function BooleanFields(st: Settings): seq<Field> {
    [Field("enablePageNumbers", st.enablePageNumbers),
     Field("enableTableOfContents", st.enableTableOfContents)]
  }

  /** `{ pageSize: 'A4', orientation: 'portrait', margins: 20, ...settings }`:
      a property the request sets, even to `null`, overrides the default. */
  function WithDefaults(st: Settings): (r: Settings)
    ensures st.pageSize != Undefined ==> r.pageSize == st.pageSize
    ensures st.pageSize == Undefined ==> r.pageSize == Str("A4")
    ensures st.orientation != Undefined ==> r.orientation == st.orientation
    ensures st.orientation == Undefined ==> r.orientation == Str("portrait")
    ensures forall i :: 0 <= i < 4 ==>
      MarginFields(r)[i].value == (if MarginFields(st)[i].value == Undefined then Num(20) else MarginFields(st)[i].value)
    ensures TextFields(r) == TextFields(st) && BooleanFields(r) == BooleanFields(st)
  {
    st.(
      pageSize := if st.pageSize == Undefined then Str("A4") else st.pageSize,
      orientation := if st.orientation == Undefined then Str("portrait") else st.orientation,
      marginTop := if st.marginTop == Undefined then Num(20) else st.marginTop,
      marginBottom := if st.marginBottom == Undefined then Num(20) else st.marginBottom,
      marginLeft := if st.marginLeft == Undefined then Num(20) else st.marginLeft,
      marginRight := if st.marginRight == Undefined then Num(20) else st.marginRight)
  }
}
