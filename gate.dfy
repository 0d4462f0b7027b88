/** The operator's confirmation in `printPhrase` (cmd/filetransfer/main.go): after
    both sides show the verification phrase, the typed line is lower-cased and
    the transfer goes on unless the line is non-empty and does not start with
    'y'. */
module Gate {
  import opened Bytes

  const LowerY: Byte := 0x79  // 'y'
  const UpperY: Byte := 0x59  // 'Y'

  /** `strings.ToLower` on one byte, for the ASCII letters 'A'..'Z'. */
  function LowerAscii(b: Byte): Byte
  {
    if 0x41 <= b <= 0x5A then b + 0x20 else b
  }

  /** `strings.ToLower` on a line, byte by byte. */
  function ToLower(s: GoString): (t: GoString)
    ensures |t| == |s|
    ensures forall i | 0 <= i < |s| :: t[i] == LowerAscii(s[i])
    ensures forall i | 0 <= i < |s| :: !(0x41 <= t[i] <= 0x5A)
  {
    seq(|s|, i requires 0 <= i < |s| => LowerAscii(s[i]))
  }

  /** The decision on the typed line: the transfer proceeds exactly when the
      line is empty (the default answer) or starts with 'y' or 'Y'. */
  function Proceeds(line: GoString): (ok: bool)
    ensures ok <==> line == [] || line[0] == LowerY || line[0] == UpperY
  {
    var text := ToLower(line);
    !(|text| != 0 && text[0] != LowerY)
  }

  /** Only the first byte of a non-empty answer matters. */
  lemma {:induction false} OnlyFirstByteMatters(a: GoString, b: GoString)
    requires a != [] && b != [] && a[0] == b[0]
    ensures Proceeds(a) == Proceeds(b)
  {
  }

  /** "", "Y" and "yes" proceed; "n", "x" and "no" abort. */
  lemma Answers()
    ensures Proceeds([])
    ensures Proceeds([UpperY]) && Proceeds([LowerY, 0x65, 0x73])
    ensures !Proceeds([0x6E]) && !Proceeds([0x78]) && !Proceeds([0x6E, 0x6F])
  {
  }
}
