/**
 * Plain records replacing the stand-attribute XML metadata parser: an attribute,
 * its codes and its fuzzy classes, and the flag tests the formatters use.
 */
module StandMetadata {

  /** One code of a categorical attribute. */
  datatype Code = Code(codeValue: string, codeLabel: string, description: string)

  /** One record of an attribute's explicit fuzzy-class list: `fuzzyClass` counts as correct for `originalClass`. */
  datatype FuzzyClass = FuzzyClass(originalClass: int, fuzzyClass: int)

  datatype Attribute = Attribute(
    fieldName: string,
    units: string,
    description: string,
    shortDescription: string,
    isContinuous: bool,
    isCategorical: bool,
    isProject: bool,
    isAccuracy: bool,
    isSpecies: bool,
    codes: seq<Code>,
    fuzzyClasses: seq<FuzzyClass>)
}
