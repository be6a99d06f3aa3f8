/** Limits on inputs and results are in bytes of their UTF-8 text. */
module MessageLimits {
  import D = Delegation
  import opened ChannelNames

  /** The UTF-8 text of a string. */
  function Encoded(s: string): seq<Octet> {
    if s == "" then [] else Utf8(s[0]) + Encoded(s[1..])
  }

  lemma LengthOfOne(c: char)
    ensures D.Utf8Length(c) == |Utf8(c)|
  {
  }

  lemma {:induction false} EncodedOneMore(s: string, c: char)
    ensures Encoded(s + [c]) == Encoded(s) + Utf8(c)
  {
    if s == "" {
      assert ([c])[1..] == "" && s + [c] == [c];
    } else {
      assert (s + [c])[1..] == s[1..] + [c];
      EncodedOneMore(s[1..], c);
    }
  }

  lemma {:induction false} LengthIsOfUtf8(s: string)
    ensures D.ByteLength(s) == |Encoded(s)|
  {
    if s != "" {
      var front, last := s[..|s| - 1], s[|s| - 1];
      LengthIsOfUtf8(front);
      LengthOfOne(last);
      EncodedOneMore(front, last);
      assert s == front + [last];
    }
  }

  /** A message is admitted exactly if it is not empty and its UTF-8 text fits the limit. */
  lemma AdmittedIff(maxBytes: nat, message: string)
    ensures D.Admits(maxBytes, message) <==> message != "" && |Encoded(message)| <= maxBytes
  {
    LengthIsOfUtf8(message);
  }
}
