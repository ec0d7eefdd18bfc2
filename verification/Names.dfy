/** Which texts are node keys and names, spelled out letter by letter. */
module Names {
  import opened Codecs

  const LOWER := "abcdefghijklmnopqrstuvwxyz"
  const UPPER := "ABCDEFGHIJKLMNOPQRSTUVWXYZ"
  const DIGITS := "0123456789"

  lemma LowerIff(c: char)
    ensures 'a' <= c <= 'z' <==> c in LOWER
  {
    if 'a' <= c <= 'z' {
      assert LOWER[c as nat - 'a' as nat] == c;
    }
  }

  lemma UpperIff(c: char)
    ensures 'A' <= c <= 'Z' <==> c in UPPER
  {
    if 'A' <= c <= 'Z' {
      assert UPPER[c as nat - 'A' as nat] == c;
    }
  }

  lemma DigitIff(c: char)
    ensures '0' <= c <= '9' <==> c in DIGITS
  {
    if '0' <= c <= '9' {
      assert DIGITS[c as nat - '0' as nat] == c;
    }
  }

  /** At most 64 lower-case letters, digits and underscores, a letter first. */
  lemma NodeKeyIff(raw: string)
    ensures ValidNodeKey(raw) <==>
            && 1 <= |raw| <= 64 && raw[0] in LOWER
            && forall c :: c in raw ==> c in LOWER || c in DIGITS || c == '_'
  {
    forall c | c in raw
      ensures IsKeyChar(c) <==> c in LOWER || c in DIGITS || c == '_'
    {
      LowerIff(c);
      DigitIff(c);
    }
    if raw != [] {
      LowerIff(raw[0]);
    }
    assert forall i :: 0 <= i < |raw| ==> raw[i] in raw;
  }

  /** At most 64 letters, digits, underscores, full stops and hyphens. */
  lemma AsciiNameIff(raw: string)
    ensures ValidAsciiName(raw) <==>
            && 1 <= |raw| <= 64
            && forall c :: c in raw ==> c in LOWER || c in UPPER || c in DIGITS || c == '_' || c == '.' || c == '-'
  {
    forall c | c in raw
      ensures 'a' <= c <= 'z' || 'A' <= c <= 'Z' || '0' <= c <= '9' || c in "_.-" <==>
              c in LOWER || c in UPPER || c in DIGITS || c == '_' || c == '.' || c == '-'
    {
      LowerIff(c);
      UpperIff(c);
      DigitIff(c);
    }
    assert forall i :: 0 <= i < |raw| ==> raw[i] in raw;
  }
}
