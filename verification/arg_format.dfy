/** The format-string rewrite of `xmlrpc_client_call` (and of the unfinished
    `xmlrpc_client_call_asynch`): the caller's format lists one specifier per
    server URL right after the opening parenthesis, followed by the method's
    own arguments; the rewrite keeps an opening parenthesis and drops the
    server slots. The C buffer it is written into holds `strlen(format)`
    bytes, terminator included. */
module ArgFormat {

  /** `strcpy(buf, "("); strcat(buf, format + 1 + serverNum)`. The suffix
      pointer must stay inside the string (it may point at the terminator). */
  function RewriteFormat(format: string, serverNum: nat): (r: string)
    requires serverNum < |format|
    ensures |r| == |format| - serverNum
    ensures r[0] == '('
  {
    "(" + format[1 + serverNum..]
  }

  /** Bytes the rewrite stores into the buffer: the text and its terminator. */
  function BytesWritten(format: string, serverNum: nat): nat
    requires serverNum < |format|
  {
    |RewriteFormat(format, serverNum)| + 1
  }

  /** The rewrite fits the `strlen(format)`-byte buffer exactly when at least
      one server slot is dropped; with no server it overflows by one byte. */
  lemma RewriteFitsBufferIff(format: string, serverNum: nat)
    requires serverNum < |format|
    ensures BytesWritten(format, serverNum) <= |format| <==> serverNum >= 1
    ensures serverNum == 0 ==> BytesWritten(format, serverNum) == |format| + 1
  {
  }

  /** A format made of an opening character, the server slots and the
      argument part is rewritten to "(" followed by the argument part alone. */
  lemma RewriteDropsServerSlots(open: char, slots: string, rest: string)
    ensures RewriteFormat([open] + slots + rest, |slots|) == "(" + rest
  {
    assert ([open] + slots + rest)[1 + |slots|..] == rest;
  }

  /** Putting the dropped prefix back in front of the rewritten arguments
      gives the original format: nothing but the slots is lost. */
  lemma RewriteRoundTrip(format: string, serverNum: nat)
    requires serverNum < |format|
    ensures format[..1 + serverNum] + RewriteFormat(format, serverNum)[1..] == format
  {
    assert RewriteFormat(format, serverNum)[1..] == format[1 + serverNum..];
  }

  /** The example client's format "(sssii)" names three server slots, but
      its call hands a wait-policy value `w` to `serverNum`. For the small
      values an enumeration of three policies can take, the rewrite keeps
      `3 - w` server slots in the argument format, and `w = 0` overflows the
      seven-byte buffer. Only a `serverNum` of 3 would leave "(ii)". */
  lemma ExampleFormat(w: nat)
    requires w <= 3
    ensures RewriteFormat("(sssii)", w) == "(" + "sss"[w..] + "ii)"
    ensures w < 3 ==> 's' in RewriteFormat("(sssii)", w)
    ensures w == 0 ==> BytesWritten("(sssii)", w) == 8 > |"(sssii)"|
    ensures w == 3 ==> RewriteFormat("(sssii)", w) == "(ii)"
  {
    assert "(sssii)"[1 + w..] == "sss"[w..] + "ii)";
    if w < 3 {
      assert RewriteFormat("(sssii)", w)[1] == 's';
    }
  }
}
