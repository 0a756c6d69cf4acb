/** `is_str`: whether a column's values are written as quoted literals. */
module Classifier {

  /** The type names whose values are written verbatim. */
  const NumericTypes: set<string> := {"int", "double"}

  /** A value needs quotes unless its type is exactly `int` or `double`
      (case-sensitive, whole-string match). */
  function IsStr(typ: string): (quoted: bool)
    ensures !quoted <==> typ in NumericTypes
  {
    match typ
    case "int" => false
    case "double" => false
    case _ => true
  }

  /** Every other type name, including the empty one and upper-case
      spellings, is quoted. */
  lemma IsStrOtherNames()
    ensures IsStr("") && IsStr("INT") && IsStr("Double") && IsStr("varchar") && IsStr("bigint")
    ensures !IsStr("int") && !IsStr("double")
  {
  }
}
