/** What the client makes of the replies a server encodes (sections 3, 5 and 7 of
    draft-ietf-secsh-filexfer-02). */
module Replies {
  import opened Common
  import opened Wire
  import opened Session

  /** The payload of a status: its code, its text, and whatever follows, such as a language tag. */
  function EncodeStatus(code: nat, text: Bytes, rest: Bytes): Bytes {
    Digits(code, 4) + (EncodeString(text) + rest)
  }

  /** A status other than OK is reported with the server's own code, and tells that nothing happened. */
  lemma RefusalsKeepTheirCode(code: nat, text: Bytes, rest: Bytes, expected: int)
    requires 0 < code < WORD && |text| < WORD
    ensures Outcome(Reply(CMD_STATUS, EncodeStatus(code, text, rest)), expected) == Err(Status(code))
    ensures Verdict(Reply(CMD_STATUS, EncodeStatus(code, text, rest))) == Some(false)
  {
    hide UInt, String, Digits, EncodeString;
    Widths();
    UIntUndoesDigits(code, 4, EncodeString(text) + rest);
    StringUndoesEncodeString(text, rest);
  }

  /** An OK, with or without a text, is a success where only a status was expected. */
  lemma AcceptancesSucceed(rest: Bytes, expected: int)
    ensures var reply := Reply(CMD_STATUS, Digits(0, 4) + rest);
            && Verdict(reply) == Some(true) && Outcome(reply, CMD_STATUS) == Ok(rest) && Accepted(reply)
            && (expected != CMD_STATUS ==> Outcome(reply, expected) == Err(Status(SFTP_BAD_MESSAGE)))
  {
    hide UInt, String, Digits;
    Widths();
    UIntUndoesDigits(0, 4, rest);
  }

  /** A reply of another type, or one that was too large to be kept, is a bad message. */
  lemma OtherRepliesAreBad(reply: Reply, expected: int)
    ensures reply.kind != CMD_STATUS && reply.kind != expected ==>
              Outcome(reply, expected) == Err(Status(SFTP_BAD_MESSAGE))
    ensures 4 + |reply.payload| > 262_144 ==> Outcome(Kept(reply), expected) == Err(Status(SFTP_BAD_MESSAGE))
    ensures 4 + |reply.payload| <= 262_144 ==> Kept(reply) == reply
  {
  }

  lemma StringIsCut(s: Bytes, k: nat)
    requires |s| < WORD && k < |EncodeString(s)|
    ensures String(EncodeString(s)[..k]).Short?
  {
    if k >= 4 {
      Widths();
      UIntUndoesDigits(|s|, 4, s[..k - 4]);
      assert EncodeString(s)[..k] == Digits(|s|, 4) + s[..k - 4];
    }
  }

  /** A handle or the data of a read is what the server encoded; cut anywhere, there is none. */
  lemma StringsAreCarried(kind: int, s: Bytes, rest: Bytes)
    requires kind in {CMD_HANDLE, CMD_DATA} && |s| < WORD
    ensures Carried(Reply(kind, EncodeString(s) + rest), kind) == Some(s)
    ensures forall k: nat :: k < |EncodeString(s)| ==> Carried(Reply(kind, EncodeString(s)[..k]), kind) == None
  {
    hide String, EncodeString;
    StringUndoesEncodeString(s, rest);
    forall k: nat | k < |EncodeString(s)|
      ensures Carried(Reply(kind, EncodeString(s)[..k]), kind) == None
    {
      StringIsCut(s, k);
    }
  }

  /** Without its whole text a refusal is a bad message, and tells nothing. */
  lemma CutRefusalsAreBad(code: nat, text: Bytes, k: nat, expected: int)
    requires 0 < code < WORD && |text| < WORD && k < 4 + |EncodeString(text)|
    ensures var reply := Reply(CMD_STATUS, EncodeStatus(code, text, [])[..k]);
            Outcome(reply, expected) == Err(Status(SFTP_BAD_MESSAGE)) && Verdict(reply) == None
  {
    var whole := EncodeStatus(code, text, []);
    if k >= 4 {
      Widths();
      UIntUndoesDigits(code, 4, EncodeString(text)[..k - 4]);
      assert whole[..k] == Digits(code, 4) + EncodeString(text)[..k - 4];
      StringIsCut(text, k - 4);
    }
  }

  /** The size and the mode of a file are those the server encoded. */
  lemma AttributesAreSeen(a: WireAttributes, rest: Bytes)
    requires AttributesFit(a)
    ensures AttributesIn(Reply(CMD_ATTRS, EncodeAttributes(a) + rest)) == Some(Attributes(a.size, a.mode))
  {
    hide AttributesOf, EncodeAttributes;
    AttributesUndoesEncode(a, rest);
  }
}
