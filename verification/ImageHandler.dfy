/**
 * The connection a session reads from, and `ImageHandler`: receiving an upload
 * into the image store and sending a stored file as a length-prefixed frame.
 */
module Images {
  import opened Text
  import opened Wrappers
  import EndianUtils

  const CHUNK: nat := 4096

  /** Path to contents.  Uploads live below "images/", downloads name any path. */
  type Files = map<string, string>

  function ImagePath(name: string): string { "images/" + name }

  predicate HasDotDot(s: string) {
    exists i | 0 <= i < |s| - 1 :: s[i] == '.' && s[i + 1] == '.'
  }

  predicate ValidName(name: string) {
    name != "" && !HasDotDot(name) && '/' !in name && '\\' !in name
  }

  /** `std::filesystem::exists`: the path "images/." is the directory itself. */
  predicate Exists(files: Files, name: string) {
    name == "." || ImagePath(name) in files
  }

  /** What the file system does to one upload. */
  datatype Disk = Works | OpenFails | WriteFails

  datatype Verdict = Accept | Refuse(code: int)

  /** Every check made before the first byte of the body is read. */
  function Judge(files: Files, name: string, size: nat, disk: Disk): Verdict {
    if !ValidName(name) || size == 0 then Refuse(400)
    else if Exists(files, name) then Refuse(409)
    else if disk.OpenFails? then Refuse(500)
    else Accept
  }

  /**
   * The checks in their order: 400 for no name, a name with a separator or two
   * dots in a row, or size 0; then 409 for a path below "images/" that exists;
   * then 500 for a file that cannot be opened.
   */
  lemma Judged(files: Files, name: string, size: nat, disk: Disk)
    ensures var invalid := name == "" || size == 0 || '/' in name || '\\' in name
              || exists i :: 0 <= i < |name| - 1 && name[i] == '.' && name[i + 1] == '.';
            var taken := name == "." || ("images/" + name) in files;
            Judge(files, name, size, disk)
            == if invalid then Refuse(400) else if taken then Refuse(409)
               else if disk == OpenFails then Refuse(500) else Accept
  {}

  // ---------- what is said about an upload or a download ----------

  function ErrorText(code: string, message: string): string {
    "{\"status\":\"error\",\"code\":" + code + (",\"message\":\"" + message + "\"}")
  }

  const INVALID_UPLOAD := ErrorText("400", "Invalid filename or filesize")
  const NAME_TAKEN := ErrorText("409", "File already exists")
  const OPEN_FAILED := ErrorText("500", "Failed to open file for writing")
  const READ_FAILED := ErrorText("500", "Read error while receiving file")
  const WRITE_FAILED := ErrorText("500", "Failed to write file completely")
  const STORED := "{\"status\":\"success\",\"code\":200,\"message\":" + "\"Image uploaded successfully\",\"path\":\""
  const NO_IMAGE := "{\"status\": \"error\", \"code\": 404, \"message\": \"Image not found\"}"

  function RefusalText(code: int): string {
    if code == 400 then INVALID_UPLOAD else if code == 409 then NAME_TAKEN else OPEN_FAILED
  }

  function StoredText(name: string): string { STORED + (ImagePath(name) + "\"}") }

  /** What is sent for a download: the file's frame, or that there is none. */
  function ImageText(image: Option<string>): string {
    match image
    case Some(content) => Frame(content)
    case None => NO_IMAGE
  }

  // ---------- the download frame ----------

  function Chars(m: seq<bv8>): (s: string)
    ensures |s| == |m| && forall i | 0 <= i < |s| :: s[i] as int == EndianUtils.ByteValue(m[i])
  {
    seq(|m|, i requires 0 <= i < |m| => EndianUtils.ByteValue(m[i]) as char)
  }

  function Bytes(s: string): (m: seq<bv8>)
    ensures |m| == |s| && forall i | 0 <= i < |m| :: m[i] == EndianUtils.Byte(s[i] as int)
  {
    seq(|s|, i requires 0 <= i < |s| => EndianUtils.Byte(s[i] as int))
  }

  lemma BytesOfChars(m: seq<bv8>)
    ensures Bytes(Chars(m)) == m
  {
    hide EndianUtils.Byte, EndianUtils.ByteValue;
    forall i | 0 <= i < |m| ensures Bytes(Chars(m))[i] == m[i] {
      EndianUtils.ByteRoundTrip(0, m[i]);
    }
  }

  /** The eight bytes `SSL_write` takes from the memory of `netFileSize`. */
  function Prefix(size: nat): (s: string)
    ensures |s| == 8
  {
    Chars(EndianUtils.Memory(EndianUtils.Htonll(EndianUtils.Word(size))))
  }

  function Frame(content: string): string {
    Prefix(|content|) + content
  }

  /** A client that loads eight bytes, applies `ntohll` and reads that many bytes. */
  function Receive(bytes: string): Option<string> {
    if |bytes| < 8 then None
    else
      var n := EndianUtils.WordValue(EndianUtils.Ntohll(EndianUtils.Load(Bytes(bytes[..8]))));
      if 8 + n <= |bytes| then Some(bytes[8..8 + n]) else None
  }

  /** The frame's prefix is the size, most significant byte first. */
  lemma PrefixIsBigEndian(size: nat)
    ensures Bytes(Prefix(size)) == EndianUtils.Reverse(EndianUtils.Digits(size, 8))
  {
    var w := EndianUtils.Word(size);
    EndianUtils.NetworkOrder(w);
    EndianUtils.MemoryLoad(EndianUtils.Digits(size, 8));
    BytesOfChars(EndianUtils.Memory(EndianUtils.Htonll(w)));
  }

  /** The same, character by character. */
  lemma PrefixCharacters(size: nat)
    ensures var p := Prefix(size);
            && p[7] as int == size % 0x100
            && p[6] as int == size / 0x100 % 0x100
            && p[5] as int == size / 0x1_0000 % 0x100
            && p[4] as int == size / 0x100_0000 % 0x100
            && p[3] as int == size / 0x1_0000_0000 % 0x100
            && p[2] as int == size / 0x100_0000_0000 % 0x100
            && p[1] as int == size / 0x1_0000_0000_0000 % 0x100
            && p[0] as int == size / 0x100_0000_0000_0000 % 0x100
  {
    var d, w := EndianUtils.Digits(size, 8), EndianUtils.Word(size);
    EndianUtils.NetworkOrder(w);
    EndianUtils.MemoryLoad(d);
    EndianUtils.EightDigits(size);
    hide EndianUtils.Memory, EndianUtils.Htonll, EndianUtils.Load, EndianUtils.Digits, EndianUtils.ByteValue;
    assert EndianUtils.Memory(EndianUtils.Htonll(w)) == EndianUtils.Reverse(d);
  }

  /** A client gets back the file, whatever else follows on the wire. */
  lemma DownloadRoundTrip(content: string, more: string)
    requires |content| < SIZE_LIMIT
    ensures Receive(Frame(content) + more) == Some(content)
  {
    hide Prefix, Bytes;
    hide EndianUtils.Ntohll, EndianUtils.Load, EndianUtils.WordValue;
    PrefixRoundTrip(|content|);
    var bytes := Frame(content) + more;
    assert bytes[..8] == Prefix(|content|);
    assert bytes[8..8 + |content|] == content;
  }

  lemma PrefixRoundTrip(size: nat)
    requires size < SIZE_LIMIT
    ensures EndianUtils.WordValue(EndianUtils.Ntohll(EndianUtils.Load(Bytes(Prefix(size))))) == size
  {
    hide EndianUtils.Ntohll, EndianUtils.Htonll, EndianUtils.Load, EndianUtils.Memory, EndianUtils.Word;
    hide EndianUtils.WordValue, Bytes, Chars;
    var w := EndianUtils.Word(size);
    BytesOfChars(EndianUtils.Memory(EndianUtils.Htonll(w)));
    EndianUtils.LoadMemory(EndianUtils.Htonll(w));
    EndianUtils.MutualInverses(w);
    EndianUtils.WordRoundTrip(size);
  }

  // ---------- the connection ----------

  /** What has been written to a connection, and whether a write has failed. */
  datatype Output = Output(sent: string, broken: bool)

  /** `after` is `before` with `bytes` written, or with only a beginning of them if a write failed. */
  predicate Wrote(before: Output, after: Output, bytes: string) {
    if before.broken then after == before
    else after.sent <= before.sent + bytes && (!after.broken ==> after.sent == before.sent + bytes)
  }

  lemma WroteThen(a: Output, b: Output, c: Output, first: string, second: string)
    requires Wrote(a, b, first) && Wrote(b, c, second)
    ensures Wrote(a, c, first + second)
  {
    assert a.sent + first + second == a.sent + (first + second);
  }

  lemma WroteNothing(a: Output)
    ensures Wrote(a, a, "")
  {
    assert a.sent + "" == a.sent;
  }

  lemma WroteLess(a: Output, b: Output, first: string, second: string)
    requires Wrote(a, b, first) && b.broken
    ensures Wrote(a, b, first + second)
  {
    assert a.sent + first + second == a.sent + (first + second);
  }

  /**
   * The TLS connection.  `incoming` is every byte the peer delivers before the
   * connection ends or fails; `sent` is what the server has written.
   */
  class SslConnection {
    const incoming: string
    var pos: nat
    var sent: string
    var broken: bool

    constructor (incoming: string)
      ensures this.incoming == incoming && pos == 0 && sent == "" && !broken
    {
      this.incoming := incoming;
      pos, sent, broken := 0, "", false;
    }

    /** `SSL_read`: any positive number of the available bytes, none when the peer is gone. */
    method Read(max: nat) returns (chunk: string)
      requires pos <= |incoming| && max > 0
      modifies this`pos
      ensures old(pos) <= pos <= |incoming| && chunk == incoming[old(pos)..pos]
      ensures |chunk| <= max
      ensures chunk == "" <==> old(pos) == |incoming|
    {
      if pos == |incoming| {
        return "";
      }
      var n: nat :| 1 <= n <= max && pos + n <= |incoming|;
      chunk := incoming[pos..pos + n];
      pos := pos + n;
    }

    function Written(): Output
      reads this`sent, this`broken
    {
      Output(sent, broken)
    }

    /** `SSL_write`: the whole buffer, or a failure from which the connection does not recover. */
    method Write(bytes: string) returns (ok: bool)
      modifies this`sent, this`broken
      ensures ok == !broken
      ensures Wrote(old(Written()), Written(), bytes)
    {
      var fails: bool := *;
      if broken || fails {
        broken := true;
        return false;
      }
      sent := sent + bytes;
      ok := true;
    }
  }

  // ---------- the handler ----------

  class ImageHandler {
    var files: Files

    constructor (files: Files)
      ensures this.files == files
    {
      this.files := files;
    }

    /**
     * A refused upload reads nothing.  An accepted one reads exactly `filesize`
     * bytes and keeps them as one file, or leaves the store as it was.
     */
    method HandleImageUpload(ssl: SslConnection, filename: string, filesize: nat, disk: Disk) returns (result: string)
      requires ssl.pos <= |ssl.incoming|
      modifies this, ssl`pos
      ensures ssl.pos <= |ssl.incoming|
      ensures var verdict := Judge(old(files), filename, filesize, disk);
        var from := old(ssl.pos);
        match verdict
        case Refuse(code) => result == RefusalText(code) && files == old(files) && ssl.pos == from
        case Accept =>
          if |ssl.incoming| < from + filesize then
            result == READ_FAILED && files == old(files) && ssl.pos == |ssl.incoming|
          else
            && ssl.pos == from + filesize
            && if disk.WriteFails? then result == WRITE_FAILED && files == old(files)
               else
                 && result == StoredText(filename)
                 && files == old(files)[ImagePath(filename) := ssl.incoming[from..from + filesize]]
    {
      if filename == "" || filesize == 0 || HasDotDot(filename) || '/' in filename || '\\' in filename {
        return INVALID_UPLOAD;
      }
      var fullPath := ImagePath(filename);
      if Exists(files, filename) {
        return NAME_TAKEN;
      }
      if disk.OpenFails? {
        return OPEN_FAILED;
      }
      files := files[fullPath := ""];
      assert ssl.incoming[ssl.pos..ssl.pos] == "";
      var totalBytesRead := 0;
      while totalBytesRead < filesize
        invariant totalBytesRead <= filesize
        invariant old(ssl.pos) + totalBytesRead == ssl.pos <= |ssl.incoming|
        invariant files == old(files)[fullPath := ssl.incoming[old(ssl.pos)..ssl.pos]]
      {
        var room := filesize - totalBytesRead;
        var buffer := ssl.Read(if room < CHUNK then room else CHUNK);
        if buffer == "" {
          files := files - {fullPath};
          return READ_FAILED;
        }
        files := files[fullPath := files[fullPath] + buffer];
        assert files[fullPath] == ssl.incoming[old(ssl.pos)..ssl.pos];
        totalBytesRead := totalBytesRead + |buffer|;
      }
      if disk.WriteFails? {
        files := files - {fullPath};
        return WRITE_FAILED;
      }
      return StoredText(filename);
    }

    /**
     * Sends the frame of the file in pieces of at most 4096 bytes, or says that
     * there is no such file.
     */
    method HandleGetImage(ssl: SslConnection, imagePath: string)
      requires imagePath in files ==> |files[imagePath]| < SIZE_LIMIT
      modifies ssl`sent, ssl`broken
      ensures Wrote(old(ssl.Written()), ssl.Written(), ImageText(Get(files, imagePath)))
    {
      hide Prefix, Wrote;
      if imagePath !in files {
        var _ := ssl.Write(NO_IMAGE);
        return;
      }
      var file := files[imagePath];
      var ok := ssl.Write(Prefix(|file|));
      if !ok {
        WroteLess(old(ssl.Written()), ssl.Written(), Prefix(|file|), file);
        return;
      }
      var cursor, eof := 0, false;
      assert Prefix(|file|) + file[..0] == Prefix(|file|);
      while !eof
        invariant cursor <= |file| && (eof ==> cursor == |file|)
        invariant !ssl.broken && Wrote(old(ssl.Written()), ssl.Written(), Prefix(|file|) + file[..cursor])
        decreases !eof, |file| - cursor
      {
        var rest := |file| - cursor;
        var bytesRead := if rest < CHUNK then rest else CHUNK;
        eof := rest < CHUNK;
        var buffer := file[cursor..cursor + bytesRead];
        cursor := cursor + bytesRead;
        assert Prefix(|file|) + file[..cursor] == Prefix(|file|) + file[..cursor - bytesRead] + buffer;
        if bytesRead > 0 {
          ghost var before := ssl.Written();
          ok := ssl.Write(buffer);
          WroteThen(old(ssl.Written()), before, ssl.Written(), Prefix(|file|) + file[..cursor - bytesRead], buffer);
          if !ok {
            WroteLess(old(ssl.Written()), ssl.Written(), Prefix(|file|) + file[..cursor], file[cursor..]);
            assert Prefix(|file|) + file[..cursor] + file[cursor..] == Frame(file);
            return;
          }
        }
      }
      assert Prefix(|file|) + file[..cursor] == Frame(file);
    }
  }
}
