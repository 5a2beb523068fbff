/** A node type as reflection shows it: its fields with their parsed spec tags. */
module NodeTypes {

  /** What kind of Go field it is; `Basic` is any type that is neither a variable nor a credential. */
  datatype Kind = InVar | OutVar | OptVar | Credential | Basic

  /** A struct field with its parsed spec tag. */
  datatype Field = Field(name: string, kind: Kind, spec: map<string, string>) {
    predicate Has(key: string) { key in spec }

    function Get(key: string): string { if key in spec then spec[key] else "" }

    predicate IsVar() { kind.InVar? || kind.OutVar? || kind.OptVar? }

    predicate IsEnum() { Get("enum") != "" }

    function Low(): string { LowerFirstLetter(name) }
  }

  function LowerChar(c: char): char {
    if 'A' <= c <= 'Z' then c + 32 as char else c
  }

  function LowerFirstLetter(text: string): string {
    if text == "" then "" else [LowerChar(text[0])] + text[1..]
  }

  predicate DistinctNames(fields: seq<Field>) {
    forall i, j :: 0 <= i < j < |fields| ==> fields[i].Low() != fields[j].Low()
  }
}
