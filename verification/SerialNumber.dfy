/** The FPGA serial number in QSPI flash: one writer and three readers. The library reader
    returns a string of at most 8 characters; the boot loader and the manufacturing test
    both read 16 bytes and display what follows the tag. */
module SerialNumber {
  import opened Arithmetic
  import opened ByteOrder
  import opened Flash

  const TAG: seq<Byte> := [0x46, 0x50, 0x47, 0x41, 0x20]  // "FPGA "
  const SN_SIZE := 9

  lemma TagText()
    ensures |TAG| == 5 && forall i :: 0 <= i < 5 ==> TAG[i] == "FPGA "[i] as nat
  {
  }

  // ----- C strings

  /** Index of the first byte that is 0 or 0xff, or the length if there is none. */
  function Stop(s: seq<Byte>): (n: nat)
    ensures n <= |s|
    ensures forall i :: 0 <= i < n ==> s[i] != 0 && s[i] != ERASED
    ensures n < |s| ==> s[n] == 0 || s[n] == ERASED
  {
    if s == [] || s[0] == 0 || s[0] == ERASED then 0 else 1 + Stop(s[1..])
  }

  /** The first stop byte is 0xff. */
  predicate Erased(s: seq<Byte>) {
    Stop(s) < |s| && s[Stop(s)] == ERASED
  }

  /** The C string at the start of a buffer: the bytes before the first 0. */
  function CString(s: seq<Byte>): (r: seq<Byte>)
    ensures r <= s && 0 !in r
    ensures |r| < |s| ==> s[|r|] == 0
  {
    if s == [] || s[0] == 0 then [] else [s[0]] + CString(s[1..])
  }

  lemma CStringIs(s: seq<Byte>, n: nat)
    requires n < |s| && s[n] == 0 && 0 !in s[..n]
    ensures CString(s) == s[..n]
  {
    var r := CString(s);
    if |r| != n {
      assert false;
    }
  }

  /** strchr(s, 0xff), with the search bounded by the buffer: -1 for NULL. */
  method StrChrErased(s: seq<Byte>) returns (p: int)
    ensures p == if Erased(s) then Stop(s) else -1
  {
    var i := 0;
    while i < |s| && s[i] != ERASED
      invariant i <= Stop(s)
    {
      if s[i] == 0 { return -1; }
      i := i + 1;
    }
    p := if i < |s| then i else -1;
  }

  lemma StopUnique(s: seq<Byte>, n: nat)
    requires n <= |s| && (forall i :: 0 <= i < n ==> s[i] != 0 && s[i] != ERASED)
    requires n < |s| ==> s[n] == 0 || s[n] == ERASED
    ensures Stop(s) == n
  {
  }

  // ----- the three readers

  predicate Tagged(flash: seq<Byte>) {
    |flash| >= 5 && flash[..5] == TAG
  }

  /** What the library reader returns: the bytes after the tag, at most 8, up to the first
      0 or 0xff. */
  function LibraryString(flash: seq<Byte>): seq<Byte>
    requires |flash| >= 16
  {
    if Tagged(flash) then flash[5..5 + Stop(flash[5..13])] else []
  }

  /** What the boot loader and the manufacturing test display. A 0xff ends the string
      wherever it is in the 16-byte buffer; without one, the string is cut to 8. */
  function DisplayedString(flash: seq<Byte>): seq<Byte>
    requires |flash| >= 16
  {
    if !Tagged(flash) then []
    else
      var n := Stop(flash[5..16]);
      if Erased(flash[5..16]) then flash[5..5 + n] else flash[5..5 + Min(n, 8)]
  }

  /** What the library reader's buffer holds after its reads: a short second read leaves
      what was there before. */
  function Body(flash: seq<Byte>, before: seq<Byte>, got: nat): (body: seq<Byte>)
    requires |before| == SN_SIZE && got <= 8 && 5 + got <= |flash|
    ensures |body| == 8
  {
    flash[5..5 + got] + before[0 := 0][got..8]
  }

  /** GetFpgaSerialNumber into the caller's 9-byte buffer; `got1` and `got2` are what the two
      reads transfer. */
  method GetFpgaSerialNumber(flash: seq<Byte>, opens: bool, got1: nat, got2: nat, sn: array<Byte>)
    requires sn.Length == SN_SIZE && got1 <= 5 && got1 <= |flash| && got2 <= 8 && (got1 == 5 ==> 5 + got2 <= |flash|)
    modifies sn
    ensures CString(sn[..]) ==
            if opens && got1 == 5 && Tagged(flash)
            then var body := Body(flash, old(sn[..]), got2); body[..Stop(body)]
            else []
    ensures opens && got1 == 5 && got2 == 8 && |flash| >= 16 ==> CString(sn[..]) == LibraryString(flash)
  {
    sn[0] := 0;
    if !opens { return; }
    var n, data := got1, flash[..got1];
    if n == 5 && data == TAG {
      forall i | 0 <= i < got2 { sn[i] := flash[5 + i]; }
      var body := sn[..];
      assert body[..8] == Body(flash, old(sn[..]), got2);
      var p := StrChrErased(body);
      if p >= 0 {
        sn[p] := 0;
      } else {
        sn[SN_SIZE - 1] := 0;
      }
      Terminated(body, body[..8], sn[..], p);
      assert got2 == 8 ==> Body(flash, old(sn[..]), got2) == flash[5..13];
    }
  }

  /** Terminating the buffer at the first 0xff, or else at its end, leaves the wanted string. */
  lemma Terminated(body: seq<Byte>, eight: seq<Byte>, sn: seq<Byte>, p: int)
    requires |body| == 9 && eight == body[..8]
    requires p == if Erased(body) then Stop(body) else -1
    requires sn == if p >= 0 then body[p := 0] else body[8 := 0]
    ensures CString(sn) == eight[..Stop(eight)]
  {
    var n := Stop(eight);
    if Stop(body) < 8 {
      StopUnique(eight, Stop(body));
    } else {
      StopUnique(eight, 8);
    }
    assert sn[..n] == body[..n];
    CStringIs(sn, n);
  }

  /** The reader in FpgaV3_Init_QSPI and in menu: 16 bytes, terminated in place. */
  method DisplaySerialNumber(flash: seq<Byte>, readOk: bool) returns (shown: seq<Byte>)
    requires |flash| >= 16
    ensures shown == if readOk then DisplayedString(flash) else []
  {
    shown := [];
    if !readOk { return; }
    var buff := flash[..16];
    assert flash[..5] == buff[..5];
    if buff[..5] == TAG {
      var p := StrChrErased(buff);
      if p >= 0 {
        buff := buff[p := 0];
      } else {
        buff := buff[13 := 0];
      }
      Shown(flash, buff, p);
      shown := CString(buff[5..]);
    }
  }

  lemma Shown(flash: seq<Byte>, buff: seq<Byte>, p: int)
    requires |flash| >= 16 && Tagged(flash) && p == if Erased(flash[..16]) then Stop(flash[..16]) else -1
    requires buff == if p >= 0 then flash[..16][p := 0] else flash[..16][13 := 0]
    ensures CString(buff[5..]) == DisplayedString(flash)
  {
    assert flash[..16][..5] == flash[..5];
    TagHasNoStop(flash[..16]);
    Behind(flash, buff, p);
    Cut(flash[5..16], buff[5..]);
  }

  /** What terminating the buffer does behind the tag. */
  lemma Behind(flash: seq<Byte>, buff: seq<Byte>, p: int)
    requires |flash| >= 16 && (p < 0 || 5 <= p < 16)
    requires buff == if p >= 0 then flash[..16][p := 0] else flash[..16][13 := 0]
    ensures buff[5..] == if p >= 0 then flash[5..16][p - 5 := 0] else flash[5..16][8 := 0]
    ensures flash[..16][5..] == flash[5..16]
  {
  }

  /** Behind the tag the string ends at the first 0xff, or else at the first 0 or after 8. */
  lemma Cut(tail: seq<Byte>, ended: seq<Byte>)
    requires |tail| == 11
    requires ended == if Erased(tail) then tail[Stop(tail) := 0] else tail[8 := 0]
    ensures CString(ended) == tail[..if Erased(tail) then Stop(tail) else Min(Stop(tail), 8)]
  {
    var cut := if Erased(tail) then Stop(tail) else Min(Stop(tail), 8);
    assert ended[..cut] == tail[..cut];
    CStringIs(ended, cut);
  }

  lemma TagHasNoStop(buff: seq<Byte>)
    requires |buff| >= 5 && buff[..5] == TAG
    ensures Stop(buff) == 5 + Stop(buff[5..])
  {
    var n := 5 + Stop(buff[5..]);
    forall i | 0 <= i < n ensures buff[i] != 0 && buff[i] != ERASED {
      if i < 5 {
        assert buff[i] == TAG[i];
      } else {
        assert buff[i] == buff[5..][i - 5];
      }
    }
    assert n < |buff| ==> buff[n] == buff[5..][n - 5];
    StopUnique(buff, n);
  }

  /** The two kinds of reader agree on a flash exactly unless the tag is followed by nine
      bytes that are neither 0 nor 0xff and the next stop byte in the 16-byte buffer is 0xff. */
  lemma ReadersAgree(flash: seq<Byte>)
    requires |flash| >= 16
    ensures LibraryString(flash) == DisplayedString(flash) <==>
            !(Tagged(flash) && 9 <= Stop(flash[5..16]) && Erased(flash[5..16]))
  {
    if Tagged(flash) {
      var n := Stop(flash[5..16]);
      assert flash[5..13] == flash[5..16][..8];
      StopUnique(flash[5..13], Min(n, 8));
    }
  }

  /** So the readers do disagree on every nine-character number put behind the tag. */
  lemma NineCharacters(sn: seq<Byte>)
    requires |sn| == 9 && 0 !in sn && ERASED !in sn
    ensures var flash := TAG + sn + [ERASED, ERASED];
            LibraryString(flash) == sn[..8] && DisplayedString(flash) == sn
  {
    var flash := TAG + sn + [ERASED, ERASED];
    assert flash[..5] == TAG && flash[5..16] == sn + [ERASED, ERASED] && flash[5..13] == sn[..8];
    StopUnique(flash[5..16], 9);
    StopUnique(flash[5..13], 8);
    assert flash[5..14] == sn;
  }

  // ----- the writer

  /** ProgramFpgaSerialNumber; `sent1` and `sent2` are what the two writes transfer. */
  method ProgramFpgaSerialNumber(sn: seq<Byte>, dev: Device, opens: bool, sent1: nat, sent2: nat)
    returns (ok: bool)
    requires dev.Valid() && dev.pos == 0 && 16 <= dev.eraseSize <= |dev.bytes|
    requires 0 !in sn && sent1 <= 5 && sent2 <= |sn|
    modifies dev
    ensures ok <==> |sn| < SN_SIZE && opens && sent1 == 5 && sent2 == |sn|
    ensures |sn| >= SN_SIZE || !opens ==> dev.bytes == old(dev.bytes)
    ensures ok ==> Holds(dev.bytes, sn)
    ensures |dev.bytes| == |old(dev.bytes)| && dev.bytes[dev.eraseSize..] == old(dev.bytes)[dev.eraseSize..]
  {
    if |sn| >= SN_SIZE { return false; }
    if !opens { return false; }
    dev.Erase(0);
    dev.Write(TAG[..sent1]);
    if sent1 != 5 { return false; }
    dev.Write(sn[..sent2]);
    forall b: Byte ensures And(ERASED, b) == b { AndErased(b); }
    return sent2 == |sn|;
  }

  /** The flash starts with the tag and `sn`, followed by erased bytes. */
  ghost predicate Holds(flash: seq<Byte>, sn: seq<Byte>) {
    && |sn| <= 8 && |flash| >= 16
    && flash[..5] == TAG && flash[5..5 + |sn|] == sn
    && forall i :: 5 + |sn| <= i < 16 ==> flash[i] == ERASED
  }

  lemma StopOfHolds(flash: seq<Byte>, sn: seq<Byte>)
    requires Holds(flash, sn) && 0 !in sn
    ensures Stop(flash[5..16]) == Stop(sn) && flash[5 + Stop(sn)] == ERASED
  {
    var body := flash[5..16];
    forall i | 0 <= i < |sn| ensures body[i] == sn[i] {
      assert body[i] == flash[5..5 + |sn|][i];
    }
    assert Stop(sn) < |sn| ==> sn[Stop(sn)] in sn;
    StopUnique(body, Stop(sn));
  }

  /** After successful programming every reader sees the number up to its first 0xff byte;
      so it comes back unchanged exactly when it has none. */
  lemma RoundTrip(flash: seq<Byte>, sn: seq<Byte>)
    requires Holds(flash, sn) && 0 !in sn
    ensures LibraryString(flash) == sn[..Stop(sn)] == DisplayedString(flash)
    ensures LibraryString(flash) == sn <==> ERASED !in sn
  {
    assert Stop(flash[5..16]) == Stop(sn) && flash[5 + Stop(sn)] == ERASED by { StopOfHolds(flash, sn); }
    ReadersAgree(flash);
    assert flash[5..5 + Stop(sn)] == flash[5..5 + |sn|][..Stop(sn)];
    if ERASED in sn {
      var i :| 0 <= i < |sn| && sn[i] == ERASED;
      assert Stop(sn) <= i;
    }
  }

  /** Programming a number and reading it with the library and with a displaying reader. */
  method ProgramAndRead(sn: seq<Byte>, dev: Device, opens: bool, sent1: nat, sent2: nat)
    returns (ok: bool, read: seq<Byte>, shown: seq<Byte>)
    requires dev.Valid() && dev.pos == 0 && 16 <= dev.eraseSize <= |dev.bytes|
    requires 0 !in sn && sent1 <= 5 && sent2 <= |sn|
    modifies dev
    ensures ok <==> |sn| < SN_SIZE && opens && sent1 == 5 && sent2 == |sn|
    ensures ok ==> read == shown == sn[..Stop(sn)]
    ensures ok ==> (read == sn <==> ERASED !in sn)
  {
    read, shown := [], [];
    ok := ProgramFpgaSerialNumber(sn, dev, opens, sent1, sent2);
    if ok {
      var buffer := new Byte[SN_SIZE];
      GetFpgaSerialNumber(dev.bytes, true, 5, 8, buffer);
      read := CString(buffer[..]);
      shown := DisplaySerialNumber(dev.bytes, true);
      RoundTrip(dev.bytes, sn);
    }
  }
}
