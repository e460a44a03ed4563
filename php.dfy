/** The few PHP value conversions the modelled code relies on. */
module Php {
  import opened Wrappers

  /** PHP truthiness of a string: "" and "0" are false, every other string is true. */
  predicate Truthy(s: string) {
    s != "" && s != "0"
  }

  /** Truthiness of a string that may be null; null is false. */
  predicate TruthyOpt(s: Option<string>) {
    s.Some? && Truthy(s.value)
  }

  /** String conversion of a string that may be null; null converts to "". */
  function TextOf(s: Option<string>): string {
    match s
    case None => ""
    case Some(t) => t
  }
}
