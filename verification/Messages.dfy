/** The messages of the Terminal Block Protocol. */
module Messages {
  import opened Text
  import opened Json

  /** How much capability a block's content asks for, in ascending order. */
  datatype Tier = Isolated | Restricted | Trusted

  /** One block's alternative representations by MIME type, and its presentation hints. */
  datatype Bundle = Bundle(mime: map<string, Value>, heightHint: Option<nat>, title: Option<string>)

  datatype Message =
    | Caps
    | Close(id: nat)
    | Emit(bundle: Bundle, id: nat, trust: Tier)
    | Open(id: nat, mime: string, spec: Value)
    | Patch(id: nat, patch: Value)
}
