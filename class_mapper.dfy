/** The class mapper: detector labels of certain classes collapse to one alias. */
module ClassMapper {

  /** The display label shared by every foreign-object class. */
  const ForeignObject: string := "Foreign Object"

  /** The raw labels, in lower case, that count as a foreign object. */
  const ForeignObjectClasses: set<string> := {"bottle", "cup", "knife", "backpack", "handbag", "scissors"}

  /** Lower-casing of one character; only the ASCII letters change. */
  function LowerChar(c: char): char
  {
    if 'A' <= c <= 'Z' then (c as int - 'A' as int + 'a' as int) as char else c
  }

  function ToLower(s: string): string
  {
    seq(|s|, i requires 0 <= i < |s| => LowerChar(s[i]))
  }

  /**
   * A label whose lower-case form is a foreign-object class becomes the alias;
   * every other label is returned as it is, casing included.
   */
  function MapClassName(name: string): (display: string)
    ensures display == ForeignObject <==> (ToLower(name) in ForeignObjectClasses || name == ForeignObject)
    ensures display != ForeignObject ==> display == name
  {
    if ToLower(name) in ForeignObjectClasses then ForeignObject else name
  }

  /** Mapping a display label again changes nothing: the alias is not itself a foreign-object class. */
  lemma MapClassNameIdempotent(name: string)
    ensures MapClassName(MapClassName(name)) == MapClassName(name)
  {
    assert |ToLower(ForeignObject)| == 14;
  }

  /**
   * Two labels that agree up to letter case are treated alike: both become the alias when they
   * name a foreign-object class, and both are kept as written otherwise.
   */
  lemma MapClassNameIgnoresCase(a: string, b: string)
    requires ToLower(a) == ToLower(b)
    ensures ToLower(a) in ForeignObjectClasses ==> MapClassName(a) == ForeignObject && MapClassName(b) == ForeignObject
    ensures ToLower(a) !in ForeignObjectClasses ==> MapClassName(a) == a && MapClassName(b) == b
  {
  }

  /** Some concrete labels the detector produces. */
  lemma MapClassNameExamples()
    ensures MapClassName("Bottle") == ForeignObject
    ensures MapClassName("KNIFE") == ForeignObject
    ensures MapClassName("person") == "person"
  {
    assert ToLower("Bottle") == "bottle";
    assert ToLower("KNIFE") == "knife";
    assert ToLower("person") == "person";
  }

  datatype Color = Red | Green

  /** Boxes around foreign objects are drawn red, all others green. */
  function BoxColor(display: string): (c: Color)
    ensures c == Red <==> display == ForeignObject
  {
    if display == ForeignObject then Red else Green
  }
}
