/** The run option, the list format and the load-balancer state, with the
    ways the program reads and prints them (src/models.rs). Letter case is
    folded on ASCII letters only. */
module Models {
  import opened Wrappers

  datatype RunOption = List | Delete | Unknown

  datatype ListFormat = Tabled | Csv

  datatype LoadBalancerState = Active | Inactive

  // ---------------------------------------------------------------------------
  // ASCII letter case

  function ToLowerChar(c: char): (l: char)
    ensures 'A' <= c <= 'Z' ==> 'a' <= l <= 'z'
    ensures !('A' <= c <= 'Z') ==> l == c
  {
    if 'A' <= c <= 'Z' then (c as int - 'A' as int + 'a' as int) as char else c
  }

  function ToUpperChar(c: char): char
  {
    if 'a' <= c <= 'z' then (c as int - 'a' as int + 'A' as int) as char else c
  }

  /** Rust's `to_lowercase`, on ASCII letters. */
  function ToLower(s: string): (r: string)
    ensures |r| == |s|
    ensures forall i :: 0 <= i < |s| ==> r[i] == ToLowerChar(s[i])
  {
    if |s| == 0 then "" else [ToLowerChar(s[0])] + ToLower(s[1..])
  }

  /** `s` spells the lower-case word `w`, each letter in either case. */
  ghost predicate IsCaseVariantOf(s: string, w: string)
  {
    |s| == |w| && forall i :: 0 <= i < |s| ==> s[i] == w[i] || s[i] == ToUpperChar(w[i])
  }

  ghost predicate IsLowerWord(w: string)
  {
    forall i :: 0 <= i < |w| ==> 'a' <= w[i] <= 'z'
  }

  /** Lower-casing gives a lower-case word exactly for its case variants. */
  lemma LowerIffCaseVariant(s: string, w: string)
    requires IsLowerWord(w)
    ensures ToLower(s) == w <==> IsCaseVariantOf(s, w)
  {
  }

  // ---------------------------------------------------------------------------
  // RunOption

  /** Serialize: the lower-case name of the option. */
  function SerializeRunOption(o: RunOption): string
  {
    match o
    case List => "list"
    case Delete => "delete"
    case Unknown => "unknown"
  }

  /** A value handed to a deserializer: a string, or a value of any other
      kind (a number, a list, a map, ...). */
  datatype SerdeValue = StringValue(text: string) | OtherValue

  /** Deserialize: reading a string fails on a value of another kind; a
      string is matched exactly and case-sensitively, and every string other
      than "list" and "delete" is Unknown. */
  function DeserializeRunOption(v: SerdeValue): Result<RunOption, ()>
  {
    match v
    case OtherValue => Err(())
    case StringValue(text) =>
      Ok(match text
         case "list" => List
         case "delete" => Delete
         case _ => Unknown)
  }

  /** Display: the capitalised name of the option. */
  function RunOptionDisplay(o: RunOption): string
  {
    match o
    case List => "List"
    case Delete => "Delete"
    case Unknown => "Unknown"
  }

  /** Debug prints the same text as Display. */
  function RunOptionDebug(o: RunOption): (text: string)
    ensures text == RunOptionDisplay(o)
  {
    match o
    case List => "List"
    case Delete => "Delete"
    case Unknown => "Unknown"
  }

  /** FromStr: "list" or "delete" in any letter case; anything else is an error. */
  function RunOptionFromStr(input: string): (r: Result<RunOption, ()>)
    ensures r.Ok? ==> r.value != Unknown
  {
    match ToLower(input)
    case "list" => Ok(List)
    case "delete" => Ok(Delete)
    case _ => Err(())
  }

  /** Serializing and then deserializing gives back every option, Unknown included. */
  lemma DeserializeSerialize(o: RunOption)
    ensures DeserializeRunOption(StringValue(SerializeRunOption(o))) == Ok(o)
  {
  }

  /** Deserialize fails exactly on a value that is not a string. It gives
      List or Delete exactly for the two lower-case spellings, and every
      other string, "List" for one, gives Unknown. */
  lemma DeserializeIsExact(v: SerdeValue)
    ensures DeserializeRunOption(v).Err? <==> v.OtherValue?
    ensures DeserializeRunOption(v) == Ok(List) <==> v == StringValue("list")
    ensures DeserializeRunOption(v) == Ok(Delete) <==> v == StringValue("delete")
    ensures DeserializeRunOption(v) == Ok(Unknown) <==>
      v.StringValue? && v.text != "list" && v.text != "delete"
  {
  }

  /** FromStr accepts exactly the case variants of "list" and "delete". */
  lemma RunOptionFromStrAccepts(input: string)
    ensures RunOptionFromStr(input) == Ok(List) <==> IsCaseVariantOf(input, "list")
    ensures RunOptionFromStr(input) == Ok(Delete) <==> IsCaseVariantOf(input, "delete")
    ensures RunOptionFromStr(input).Err? <==>
      !IsCaseVariantOf(input, "list") && !IsCaseVariantOf(input, "delete")
  {
    LowerIffCaseVariant(input, "list");
    LowerIffCaseVariant(input, "delete");
  }

  /** Deserialize is case-sensitive where FromStr is not. */
  lemma DeserializeDiffersFromFromStr()
    ensures DeserializeRunOption(StringValue("List")) == Ok(Unknown)
    ensures RunOptionFromStr("List") == Ok(List)
    ensures RunOptionFromStr("DELETE") == Ok(Delete)
  {
    RunOptionFromStrAccepts("List");
    RunOptionFromStrAccepts("DELETE");
  }

  /** Parsing the displayed text gives back List and Delete; the text of
      Unknown is rejected. */
  lemma RunOptionFromStrDisplay(o: RunOption)
    ensures o != Unknown ==> RunOptionFromStr(RunOptionDisplay(o)) == Ok(o)
    ensures o == Unknown ==> RunOptionFromStr(RunOptionDisplay(o)).Err?
  {
    RunOptionFromStrAccepts(RunOptionDisplay(o));
  }

  /** The serialized text parses back with FromStr, except for Unknown. */
  lemma RunOptionFromStrSerialize(o: RunOption)
    ensures o != Unknown ==> RunOptionFromStr(SerializeRunOption(o)) == Ok(o)
    ensures o == Unknown ==> RunOptionFromStr(SerializeRunOption(o)).Err?
  {
    RunOptionFromStrAccepts(SerializeRunOption(o));
  }

  // ---------------------------------------------------------------------------
  // ListFormat

  function ListFormatDisplay(f: ListFormat): string
  {
    match f
    case Tabled => "Tabled"
    case Csv => "Csv"
  }

  /** Debug prints the same text as Display. */
  function ListFormatDebug(f: ListFormat): (text: string)
    ensures text == ListFormatDisplay(f)
  {
    match f
    case Tabled => "Tabled"
    case Csv => "Csv"
  }

  /** FromStr: "tabled" or "csv" in any letter case; anything else is an error. */
  function ListFormatFromStr(input: string): Result<ListFormat, ()>
  {
    match ToLower(input)
    case "tabled" => Ok(Tabled)
    case "csv" => Ok(Csv)
    case _ => Err(())
  }

  /** FromStr accepts exactly the case variants of "tabled" and "csv". */
  lemma ListFormatFromStrAccepts(input: string)
    ensures ListFormatFromStr(input) == Ok(Tabled) <==> IsCaseVariantOf(input, "tabled")
    ensures ListFormatFromStr(input) == Ok(Csv) <==> IsCaseVariantOf(input, "csv")
    ensures ListFormatFromStr(input).Err? <==>
      !IsCaseVariantOf(input, "tabled") && !IsCaseVariantOf(input, "csv")
  {
    LowerIffCaseVariant(input, "tabled");
    LowerIffCaseVariant(input, "csv");
  }

  /** Parsing the displayed text gives back every format. */
  lemma ListFormatFromStrDisplay(f: ListFormat)
    ensures ListFormatFromStr(ListFormatDisplay(f)) == Ok(f)
  {
    ListFormatFromStrAccepts(ListFormatDisplay(f));
  }

  // ---------------------------------------------------------------------------
  // LoadBalancerState

  function StateDisplay(s: LoadBalancerState): string
  {
    match s
    case Active => "Active"
    case Inactive => "Inactive"
  }

  /** Debug prints the same text as Display. */
  function StateDebug(s: LoadBalancerState): (text: string)
    ensures text == StateDisplay(s)
  {
    match s
    case Active => "Active"
    case Inactive => "Inactive"
  }

  /** The two states print differently. */
  lemma StateDisplayInjective(s: LoadBalancerState, t: LoadBalancerState)
    ensures StateDisplay(s) == StateDisplay(t) <==> s == t
  {
  }
}
