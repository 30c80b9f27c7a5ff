/** The limits and text checks of the network scanner protocol. */
module WsdSafety {
  import opened Text

  datatype Limits = Limits(maxXmlBytes: nat, maxImageBytes: nat, maxImages: U32, maxJobTokenBytes: nat)

  predicate SafeChar(c: char) {
    '!' <= c <= '~' && c != '<' && c != '>' && c != '&' && c != '"' && c != '\''
  }

  predicate Safe(value: string, max: nat) {
    value != "" && |value| <= max && forall i :: 0 <= i < |value| ==> SafeChar(value[i])
  }
}
