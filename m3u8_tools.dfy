/** HLS variant listing and the remux command of utils/m3u8_tools.py. The
    playlist comes already parsed: a master playlist is its list of
    sub-playlists (the `EXT-X-STREAM-INF` entries of section 4.3.4.2 of
    RFC 8216, with their absolute URIs); a media playlist has none. */
module M3u8Tools {
  import opened Wrappers
  import opened Strings

  /** The `RESOLUTION` (width, height) and `BANDWIDTH` attributes of a
      stream; either may be missing. */
  datatype StreamInfo = StreamInfo(resolution: Option<(int, int)>, bandwidth: Option<int>)

  datatype SubPlaylist = SubPlaylist(streamInfo: Option<StreamInfo>, absoluteUri: string)

  /** One `{"name": ..., "url": ...}` entry of the result. */
  datatype Variant = Variant(name: string, url: string)

  /** The label of one sub-playlist: `"{h}p"` from the resolution's height,
      else `"{bandwidth // 1000}kbps"` for a non-zero bandwidth, else
      `"Variant"`. */
  function Label(si: Option<StreamInfo>): string {
    if si.Some? && si.value.resolution.Some? then
      IntToString(si.value.resolution.value.1) + "p"
    else if si.Some? && si.value.bandwidth.Some? && si.value.bandwidth.value != 0 then
      // Python's `//` by a positive divisor rounds down, as Dafny's `/` does.
      IntToString(si.value.bandwidth.value / 1000) + "kbps"
    else
      "Variant"
  }

  /** `get_m3u8_variants(url)` once the playlist is fetched and parsed. */
  method GetM3u8Variants(url: string, playlists: seq<SubPlaylist>) returns (variants: seq<Variant>)
    ensures playlists == [] ==> variants == [Variant("Auto", url)]
    ensures playlists != [] ==> |variants| == |playlists|
    ensures playlists != [] ==> forall i :: 0 <= i < |playlists| ==>
      variants[i] == Variant(Label(playlists[i].streamInfo), playlists[i].absoluteUri)
    ensures variants != []
  {
    variants := [];
    if playlists != [] {
      for i := 0 to |playlists|
        invariant |variants| == i
        invariant forall k :: 0 <= k < i ==>
          variants[k] == Variant(Label(playlists[k].streamInfo), playlists[k].absoluteUri)
      {
        var pl := playlists[i];
        var name := "Variant";
        if pl.streamInfo.Some? {
          if pl.streamInfo.value.resolution.Some? {
            var (w, h) := pl.streamInfo.value.resolution.value;
            name := IntToString(h) + "p";
          } else if pl.streamInfo.value.bandwidth.Some? && pl.streamInfo.value.bandwidth.value != 0 {
            name := IntToString(pl.streamInfo.value.bandwidth.value / 1000) + "kbps";
          }
        }
        variants := variants + [Variant(name, pl.absoluteUri)];
      }
    } else {
      variants := variants + [Variant("Auto", url)];
    }
  }

  // ---------------------------------------------------------------------------
  // Reading a label back.

  /** What a label says about its stream. */
  datatype LabelInfo = Height(h: int) | Kbps(k: int) | NoInfo

  /** The inverse of `Label`: a label ending in `p` after a number is a
      height, one ending in `kbps` after a number a bandwidth in kbit/s. */
  function ReadLabel(l: string): LabelInfo {
    if EndsWith(l, "kbps") && ParseInt(l[..|l| - 4]).Some? then Kbps(ParseInt(l[..|l| - 4]).value)
    else if EndsWith(l, "p") && ParseInt(l[..|l| - 1]).Some? then Height(ParseInt(l[..|l| - 1]).value)
    else NoInfo
  }

  /** The label names the height when there is a resolution, whatever the
      bandwidth; the bandwidth in kbit/s (rounded down) when there is only a
      non-zero bandwidth; and nothing otherwise. */
  lemma ReadLabelOfLabel(si: Option<StreamInfo>)
    ensures si.Some? && si.value.resolution.Some? ==>
      ReadLabel(Label(si)) == Height(si.value.resolution.value.1)
    ensures si.Some? && si.value.resolution.None? && si.value.bandwidth.Some? && si.value.bandwidth.value != 0 ==>
      ReadLabel(Label(si)) == Kbps(si.value.bandwidth.value / 1000)
    ensures (si.None? || (si.value.resolution.None? && (si.value.bandwidth.None? || si.value.bandwidth.value == 0))) ==>
      ReadLabel(Label(si)) == NoInfo
  {
    if si.Some? && si.value.resolution.Some? {
      ReadNumberP(si.value.resolution.value.1);
    } else if si.Some? && si.value.bandwidth.Some? && si.value.bandwidth.value != 0 {
      ReadNumberKbps(si.value.bandwidth.value / 1000);
    } else {
      var l := "Variant";
      assert !EndsWith(l, "kbps") && !EndsWith(l, "p");
    }
  }

  lemma ReadNumberP(h: int)
    ensures ReadLabel(IntToString(h) + "p") == Height(h)
  {
    var d := IntToString(h);
    var l := d + "p";
    assert l[..|l| - 1] == d;
    IntToStringRoundTrip(h);
    assert !EndsWith(l, "kbps") by {
      if 4 <= |l| {
        assert l[|l| - 4..][3] == l[|l| - 1] == 'p';
      }
    }
  }

  lemma ReadNumberKbps(k: int)
    ensures ReadLabel(IntToString(k) + "kbps") == Kbps(k)
  {
    var d := IntToString(k);
    var l := d + "kbps";
    assert l[|l| - 4..] == "kbps";
    assert l[..|l| - 4] == d;
    IntToStringRoundTrip(k);
  }

  // ---------------------------------------------------------------------------
  // `download_m3u8_stream`.

  /** The argument list handed to ffmpeg: read `src`, copy the streams
      unchanged, overwrite `dest`. */
  function RemuxCommand(src: string, dest: string): seq<string> {
    ["ffmpeg", "-y", "-i", src, "-c", "copy", dest]
  }

  /** The argument after the first `-i`, as ffmpeg reads its input. */
  function InputOf(argv: seq<string>): Option<string>
    decreases |argv|
  {
    if |argv| < 2 then None
    else if argv[0] == "-i" then Some(argv[1])
    else InputOf(argv[1..])
  }

  /** ffmpeg reads `src` and writes `dest` (its last argument), with stream
      copy and overwriting switched on, whatever the two paths are. */
  lemma RemuxCommandReads(src: string, dest: string)
    ensures InputOf(RemuxCommand(src, dest)[1..]) == Some(src)
    ensures RemuxCommand(src, dest)[|RemuxCommand(src, dest)| - 1] == dest
    ensures "-y" in RemuxCommand(src, dest)
    ensures exists i :: (0 <= i < |RemuxCommand(src, dest)| - 1 &&
      RemuxCommand(src, dest)[i] == "-c" && RemuxCommand(src, dest)[i + 1] == "copy")
  {
    var c := RemuxCommand(src, dest);
    assert c[1..][0] == "-y" && c[1..][1..][0] == "-i";
    assert c[1..][1..][1] == src;
    assert c[4] == "-c" && c[5] == "copy";
  }
}
