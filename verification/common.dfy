/** Small shared vocabulary: optional values, the 32-bit integers the configuration
    structs store, and the entries a command-line parser is given at registration. */
module Common {

  /** An optional value, standing in for a null pointer or an absent match. */
  datatype Option<+T> = None | Some(value: T) {

    /** The wrapped value, or `default` when there is none. */
    function GetOr(default: T): T {
      match this
      case Some(v) => v
      case None => default
    }
  }

  /** The range of `int32_t`. */
  type Int32 = x: int | -0x8000_0000 <= x < 0x8000_0000

  /** One `ParseOptions::Register` call: the option's name and its help text. */
  datatype OptionEntry = OptionEntry(name: string, help: string)

  /** The names of a list of registered options, in registration order. */
  function Names(entries: seq<OptionEntry>): (r: seq<string>)
    ensures |r| == |entries|
    ensures forall i :: 0 <= i < |entries| ==> r[i] == entries[i].name
  {
    seq(|entries|, i requires 0 <= i < |entries| => entries[i].name)
  }

  /** No name occurs twice. */
  predicate Distinct(names: seq<string>) {
    forall i, j :: 0 <= i < j < |names| ==> names[i] != names[j]
  }
}
