/** Saving and loading end to end, as the two sides run: onto a stream that takes so many bytes,
    and from what it then holds into an empty server. */
module RdbReload {
  import opened Wrappers
  import opened RdbBytes
  import opened RdbStrings
  import opened RdbObjects
  import opened RdbFile
  import opened RdbTruncated
  import opened RdbWriter
  import opened RdbReader

  /** A save that reports success can be loaded, and brings every database back unless a hash field
      expires at time 0; what a save that reports failure has left is refused. */
  method SaveAndReload(c: Config, f: File, crc: Option<Bytes -> uint64>, room: nat)
    returns (saved: bool, loaded: bool, dbs: map<nat, map<Bytes, Entry>>)
    requires LzfInverts(c.env.z.lzf) && FileFits(c.env, f)
    ensures saved <==> |SaveFile(c.env, f, crc)| <= room
    ensures !saved ==> !loaded
    ensures saved && FileOk(c, f) && (crc.Some? && c.crc.Some? ==> crc == c.crc)
      ==> loaded && (Restored(f, dbs) <==> ExpiriesArePositive(f))
  {
    hide SaveFile, LoadInto, FileFits, FileOk, Restored, ExpiriesArePositive, LzfInverts;
    var writer := new Writer(room);
    assert writer.At().buf == [];
    saved := writer.WriteFile(c.env, f, crc);
    var loader := new Loader(writer.buf, map[]);
    loaded := loader.ReadFile(c);
    dbs := loader.dbs;
    if !saved {
      TruncatedNeverLoads(c, f, crc, room);
    } else if FileOk(c, f) && (crc.Some? && c.crc.Some? ==> crc == c.crc) {
      WholeFileRoundTrip(c, f, crc);
    }
  }
}
