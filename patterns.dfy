/**
 * The values and patterns (types) that the Feature helpers read and build.
 * Only the variants those helpers tell apart are kept; every pattern carries
 * its optional type alias, the name under which it was declared.
 */
module Patterns {
  import opened KotlinStd

  datatype Value = StringValue(text: string) | NumberValue(number: int) | BooleanValue(flag: bool) | NullValue

  datatype Pattern =
    | StringPattern(typeAlias: Option<string>)
    | NumberPattern(typeAlias: Option<string>)
    | ExactValuePattern(value: Value, typeAlias: Option<string>)
    | ListPattern(element: Pattern, typeAlias: Option<string>)
    | AnyPattern(alternatives: seq<Pattern>, typeAlias: Option<string>)
    | DeferredPattern(name: string, typeAlias: Option<string>)
    | ObjectPattern(fields: map<string, Pattern>, typeAlias: Option<string>)
    | OtherPattern(typeName: string, typeAlias: Option<string>)

  /** The type alias of the sentinel alternative that makes an AnyPattern nullable. */
  const EmptyAlias: string := "(empty)"

  /** Header patterns of a request or response, and the ancestor headers a stub may inherit. */
  datatype HttpHeadersPattern = HttpHeadersPattern(pattern: map<string, Pattern>, ancestorHeaders: Option<map<string, Pattern>>)
}
