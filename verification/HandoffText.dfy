/** The handoff command spelled out, as the programs on the two ends of it see it
    (internal/server/attach_handoff.go). */
module HandoffText {
  import opened Sequences
  import opened Handoff
  import Base64

  /** A character of an ID. */
  predicate IDChar(c: char) {
    'a' <= c <= 'z' || 'A' <= c <= 'Z' || '0' <= c <= '9' || c == '-' || c == '_' || c == '.'
  }

  lemma {:induction false} FalknDashIff(text: string)
    requires |text| >= 6 && forall k :: 0 <= k < |text| ==> text[k] < '\U{80}'
    ensures FALKN_DASH <= Ascii(text) <==> text[..6] == "falkn-"
  {
    var id := Ascii(text);
    assert FALKN_DASH <= id <==> forall k :: 0 <= k < 6 ==> id[k] == FALKN_DASH[k];
    assert text[..6] == "falkn-" <==> forall k :: 0 <= k < 6 ==> text[k] == "falkn-"[k];
    forall k | 0 <= k < 6 ensures id[k] == FALKN_DASH[k] <==> text[k] == "falkn-"[k] {
    }
  }

  /** IDs are falkn- and up to 250 more letters, digits, hyphens, underscores and periods. */
  lemma {:induction false} ValidIDIff(text: string)
    requires forall k :: 0 <= k < |text| ==> text[k] < '\U{80}'
    ensures ValidSessionID(Ascii(text)) <==>
            7 <= |text| <= 256 && text[..6] == "falkn-" && forall k :: 0 <= k < |text| ==> IDChar(text[k])
  {
    var id := Ascii(text);
    forall k | 0 <= k < |text| ensures IDCharacter(id[k]) <==> IDChar(text[k]) {
    }
    if |text| >= 6 {
      FalknDashIff(text);
    }
  }

  lemma {:induction false} FalknAIsEncoded()
    ensures Base64.Sextets(Ascii("falkn-a")) == [25, 38, 5, 44, 26, 54, 56, 45, 24, 16]
  {
    var id := [0x66, 0x61, 0x6c, 0x6b, 0x6e, 0x2d, 0x61];
    assert Ascii("falkn-a") == id;
    var tail := [0x6b, 0x6e, 0x2d, 0x61];
    assert id[3..] == tail && tail[3..] == [0x61];
    assert Base64.Sextets([0x61]) == [24, 16];
    assert Base64.Sextets(tail) == [26, 54, 56, 45] + [24, 16];
    assert Base64.Sextets(id) == [25, 38, 5, 44] + ([26, 54, 56, 45] + [24, 16]);
  }

  lemma {:induction false} FalknAIsSpelled()
    ensures Base64.Encode(Ascii("falkn-a")) == Ascii("ZmFsa24tYQ")
  {
    FalknAIsEncoded();
    var text: seq<byte> := [0x5a, 0x6d, 0x46, 0x73, 0x61, 0x32, 0x34, 0x74, 0x59, 0x51];
    assert Ascii("ZmFsa24tYQ") == text;
    assert Base64.Encode(Ascii("falkn-a")) == text;
  }

  lemma {:induction false} PrefixIsSpelled()
    ensures PREFIX == [0x1b] + Ascii("]1337;FalknAttach=")
  {
  }

  /** The command that asks for session falkn-a: ESC, its text, BEL. */
  lemma {:induction false} CommandForFalknA()
    ensures Printed(Ascii("falkn-a")) == [0x1b] + Ascii("]1337;FalknAttach=") + Ascii("ZmFsa24tYQ") + [0x07]
  {
    PrefixIsSpelled();
    FalknAIsSpelled();
  }
}
