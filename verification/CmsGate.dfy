/** The shape gate in its imperative form: cursors over one file that only move forward. */
module CmsGate {
  import opened Wrappers
  import opened Der
  import opened Cms

  lemma SliceOfSlice(data: Bytes, lo: nat, hi: nat, a: nat, b: nat)
    requires lo <= hi <= |data| && a <= b <= hi - lo
    ensures data[lo..hi][a..b] == data[lo + a..lo + b]
  {
    var left, right := data[lo..hi][a..b], data[lo + a..lo + b];
    assert |left| == |right|;
    forall i | 0 <= i < |left| ensures left[i] == right[i] {
      assert left[i] == data[lo..hi][a + i] == data[lo + a + i];
    }
  }

  /** A range of the file; `pos` is the only thing that changes. */
  class Cursor {
    const data: Bytes
    const end: nat
    var pos: nat

    ghost predicate Valid()
      reads this
    {
      pos <= end <= |data|
    }

    function Window(): Bytes
      reads this
      requires Valid()
    {
      data[pos..end]
    }

    constructor (data: Bytes, pos: nat, end: nat)
      requires pos <= end <= |data|
      ensures Valid() && this.data == data && this.pos == pos && this.end == end
    {
      this.data, this.pos, this.end := data, pos, end;
    }

    /**
     Takes the next element.  On success the child is the content of the
     element, nested in this range, and this range continues where it ends;
     on refusal nothing moves.
     */
    method Take(tag: byte) returns (child: Cursor?)
      requires Valid()
      modifies this
      ensures Valid()
      ensures child == null <==> ReadTlv(old(Window()), tag).None?
      ensures child == null ==> pos == old(pos)
      ensures child != null ==>
                && fresh(child) && child.Valid() && child.data == data
                && old(pos) + 2 <= child.pos <= child.end == pos
                && child.Window() == ReadTlv(old(Window()), tag).value.content
                && Window() == ReadTlv(old(Window()), tag).value.rest
    {
      var found, head, size := Announced(tag);
      if !found || size > end - pos - head { return null; }
      SliceOfSlice(data, pos, end, head, head + size);
      SliceOfSlice(data, pos, end, head + size, end - pos);
      child := new Cursor(data, pos + head, pos + head + size);
      pos := child.end;
    }

    /** Reads the tag and the length octets without moving. */
    method Announced(tag: byte) returns (found: bool, head: nat, size: nat)
      requires Valid()
      ensures found == ReadHeader(Window(), tag).Some?
      ensures found ==> ReadHeader(Window(), tag) == Some(Header(head, size)) && 2 <= head <= end - pos
    {
      found, head, size := false, 2, 0;
      ghost var s := Window();
      if end - pos < 2 || data[pos] != tag { return; }
      size := data[pos + 1] as nat;
      if data[pos + 1] >= 128 {
        var n := data[pos + 1] as nat - 128;
        if n == 0 || n > 4 || end - pos < 2 + n || data[pos + 2] == 0 { return; }
        size := 0;
        for i := 0 to n
          invariant size == Value(s[2..2 + i])
        {
          assert s[2..2 + (i + 1)][..i] == s[2..2 + i];
          size := size * 256 + data[pos + 2 + i] as nat;
        }
        if size < 128 { return; }
        head := head + n;
      }
      found := true;
    }

    /** Takes an element with known content. */
    method Exact(tag: byte, content: Bytes) returns (ok: bool)
      requires Valid()
      modifies this
      ensures Valid()
      ensures ok == ReadExact(old(Window()), tag, content).Some?
      ensures ok ==> Window() == ReadExact(old(Window()), tag, content).value
    {
      var v := Take(tag);
      if v == null { return false; }
      ok := v.Window() == content;
    }

    /** Takes an element that must fill the rest of this range. */
    method Fill(tag: byte) returns (child: Cursor?)
      requires Valid()
      modifies this
      ensures Valid()
      ensures child == null <==> ReadOnly(old(Window()), tag).None?
      ensures child != null ==> fresh(child) && child.Valid() && child.data == data && child.end == end
      ensures child != null ==> child.Window() == ReadOnly(old(Window()), tag).value
    {
      child := Take(tag);
      if child != null && pos != end { child := null; }
    }
  }

  method CheckParams(params: Cursor) returns (ok: bool)
    requires params.Valid()
    modifies params
    ensures ok == ReadParams(old(params.Window())).Some?
  {
    var nonce := params.Take(4);
    if nonce == null || nonce.end - nonce.pos != 12 { return false; }
    var icv := params.Exact(2, [16]);
    return icv && params.pos == params.end;
  }

  method CheckAlgorithm(algorithm: Cursor) returns (ok: bool)
    requires algorithm.Valid()
    modifies algorithm
    ensures ok == ReadAlgorithm(old(algorithm.Window())).Some?
  {
    var gcm := algorithm.Exact(6, AES256_GCM);
    if !gcm { return false; }
    var params := algorithm.Fill(0x30);
    if params == null { return false; }
    ok := CheckParams(params);
  }

  method CheckEncrypted(encrypted: Cursor) returns (ok: bool)
    requires encrypted.Valid()
    modifies encrypted
    ensures ok == ReadEncrypted(old(encrypted.Window())).Some?
  {
    var typed := encrypted.Exact(6, DATA);
    if !typed { return false; }
    var algorithm := encrypted.Take(0x30);
    if algorithm == null { return false; }
    var gcm := CheckAlgorithm(algorithm);
    if !gcm { return false; }
    var cipher := encrypted.Fill(0x80);
    return cipher != null && cipher.pos != cipher.end;
  }

  method CheckRecipients(recipients: Cursor) returns (ok: bool)
    requires recipients.Valid()
    modifies recipients
    ensures ok == ReadRecipients(old(recipients.Window())).Some?
  {
    var recipient := recipients.Fill(0x30);
    return recipient != null && recipient.pos != recipient.end;
  }

  method CheckAuth(auth: Cursor) returns (ok: bool)
    requires auth.Valid()
    modifies auth
    ensures ok == ReadAuth(old(auth.Window())).Some?
  {
    var version := auth.Exact(2, [0]);
    if !version { return false; }
    var recipients := auth.Take(0x31);
    if recipients == null { return false; }
    var one := CheckRecipients(recipients);
    if !one { return false; }
    ok := CheckBody(auth);
  }

  method CheckBody(auth: Cursor) returns (ok: bool)
    requires auth.Valid()
    modifies auth
    ensures ok == ReadBody(old(auth.Window())).Some?
  {
    var encrypted := auth.Take(0x30);
    if encrypted == null { return false; }
    var sealed := CheckEncrypted(encrypted);
    if !sealed { return false; }
    var mac := auth.Fill(4);
    return mac != null && mac.end - mac.pos == 16;
  }

  /** `checkAuthenticatedCMS` on the bytes of a file. */
  method CheckAuthenticatedCms(data: Bytes) returns (ok: bool)
    ensures ok <==> exists shape: Shape :: Printable(shape) && data == Print(shape)
  {
    var file := new Cursor(data, 0, |data|);
    assert data[0..|data|] == data;
    ghost var accepted := Recognize(data).Some?;
    ok := CheckContent(file);
    if accepted {
      RecognizedIsPrinted(data);
    }
    forall shape: Shape | Printable(shape) && data == Print(shape)
      ensures Recognize(data) == Some(shape)
    {
      PrintedIsRecognized(shape);
    }
  }

  method CheckContent(file: Cursor) returns (ok: bool)
    requires file.Valid()
    modifies file
    ensures ok == Recognize(old(file.Window())).Some?
  {
    var content := file.Fill(0x30);
    if content == null { return false; }
    var typed := content.Exact(6, AUTH_ENVELOPED_DATA);
    if !typed { return false; }
    var explicit := content.Fill(0xa0);
    if explicit == null { return false; }
    var auth := explicit.Fill(0x30);
    if auth == null { return false; }
    ok := CheckAuth(auth);
  }
}
