/**
 * What every field holds after loading a file, key by key, with the defaults and limits written out
 * (src/config.c:97-250).
 */
module ConfigFields {
  import opened ConfigText
  import opened PeerHistory
  import opened Config
  import opened ConfigSave

  /** An entry of a file with the section it stands in. */
  datatype Named = Named(section: string, key: string, value: string)

  /** The entries of a list of items, of which the first stands in `section`. */
  function NamedFrom(section: string, items: seq<Item>): seq<Named>
    decreases |items|
  {
    if items == [] then [] else
    match items[0]
    case Skipped => NamedFrom(section, items[1..])
    case Section(name) => NamedFrom(name, items[1..])
    case Entry(key, value) => [Named(section, key, value)] + NamedFrom(section, items[1..])
  }

  /** The entries of a file; before the first section header the section has no name. */
  function Entries(text: string): seq<Named> { NamedFrom("", ItemsOf(text)) }

  function ApplyAll(s: Settings, entries: seq<Named>): Settings {
    if entries == [] then s else
    var last := entries[|entries| - 1];
    Apply(ApplyAll(s, entries[..|entries| - 1]), last.section, last.key, last.value)
  }

  lemma {:induction false} ApplyFirst(s: Settings, first: Named, entries: seq<Named>)
    ensures ApplyAll(s, [first] + entries) == ApplyAll(Apply(s, first.section, first.key, first.value), entries)
    decreases |entries|
  {
    hide Apply;
    var all := [first] + entries;
    if entries == [] {
      assert all[..|all| - 1] == [];
    } else {
      assert all[..|all| - 1] == [first] + entries[..|entries| - 1];
      ApplyFirst(s, first, entries[..|entries| - 1]);
    }
  }

  lemma {:induction false} FollowIsApply(l: Loader, items: seq<Item>)
    ensures FollowAll(l, items).settings == ApplyAll(l.settings, NamedFrom(l.section, items))
    decreases |items|
  {
    hide Apply;
    if items != [] {
      var next := Follow(l, items[0]);
      FollowIsApply(next, items[1..]);
      if items[0].Entry? {
        ApplyFirst(l.settings, Named(l.section, items[0].key, items[0].value), NamedFrom(l.section, items[1..]));
      }
    }
  }

  lemma LoadIsApply(before: Settings, text: string)
    ensures Load(before, text) == ApplyAll(WithDefaults(before), Entries(text))
  {
    hide Apply, LoadFrom, FollowAll, WithDefaults;
    LoadsItems(Loader("", WithDefaults(before)), text);
    FollowIsApply(Loader("", WithDefaults(before)), ItemsOf(text));
  }

  predicate Matches(e: Named, section: string, key: string) { e.section == section && e.key == key }

  /** The last entry with this section and key, or |entries|. */
  function LastOf(entries: seq<Named>, section: string, key: string): (i: nat)
    ensures i <= |entries|
    ensures i < |entries| ==> entries[i].section == section && entries[i].key == key
    ensures forall j :: (if i < |entries| then i else -1) < j < |entries| ==> !Matches(entries[j], section, key)
  {
    if entries == [] then 0 else
    var last := |entries| - 1;
    if entries[last].section == section && entries[last].key == key then last else
    var i := LastOf(entries[..last], section, key);
    if i == last then |entries| else i
  }

  /** The value of the last entry for a key, or the default where there is none. */
  function ValueOf(entries: seq<Named>, section: string, key: string): Setting {
    var i := LastOf(entries, section, key);
    if i < |entries| then Given(entries[i].value) else Default
  }

  datatype Setting = Default | Given(value: string)

  /** One more entry decides its own key and no other. */
  lemma ValueOneMore(entries: seq<Named>, e: Named, section: string, key: string)
    ensures ValueOf(entries + [e], section, key)
         == if e.section == section && e.key == key then Given(e.value) else ValueOf(entries, section, key)
  {
    assert (entries + [e])[..|entries|] == entries;
  }

  /** A string in a C buffer of `size` bytes. */
  function Limited(value: string, size: nat): string
    requires size > 0
  {
    if |value| <= size - 1 then value else value[..size - 1]
  }

  /** One entry: the fields of the video, audio and network sections. */
  lemma OneEntry(s: Settings, e: Named)
    ensures var after := Apply(s, e.section, e.key, e.value);
            && after.videoBitrate
               == (if e.section == "video" && e.key == "bitrate" then Atoi(e.value) % 4294967296 else s.videoBitrate)
            && after.videoFramerate
               == (if e.section == "video" && e.key == "framerate" then Atoi(e.value) % 4294967296
                   else s.videoFramerate)
            && after.videoCodec
               == (if e.section == "video" && e.key == "codec" then Limited(e.value, 16) else s.videoCodec)
            && after.displayIndex
               == (if e.section == "video" && e.key == "display" then Atoi(e.value) else s.displayIndex)
            && after.audioEnabled
               == (if e.section == "audio" && e.key == "enabled" then e.value in {"true", "1"} else s.audioEnabled)
            && after.audioBitrate
               == (if e.section == "audio" && e.key == "bitrate" then Atoi(e.value) % 4294967296 else s.audioBitrate)
            && after.networkPort
               == (if e.section == "network" && e.key == "port" then Atoi(e.value) % 65536 else s.networkPort)
            && after.discoveryEnabled
               == (if e.section == "network" && e.key == "discovery" then e.value in {"true", "1"}
                   else s.discoveryEnabled)
            && after.lastConnected
               == (if e.section == "peers" && e.key == "last_connected" then Limited(e.value, 128) else s.lastConnected)
  {
    hide Atoi;
    NamesDiffer();
  }

  lemma NamesDiffer()
    ensures "video" != "audio" && "video" != "network" && "video" != "peers"
    ensures "audio" != "network" && "audio" != "peers" && "network" != "peers"
    ensures "bitrate" != "framerate" && "bitrate" != "codec" && "bitrate" != "display"
    ensures "framerate" != "codec" && "framerate" != "display" && "codec" != "display"
    ensures "enabled" != "bitrate" && "port" != "discovery"
  {
    assert "video"[0] == 'v' && "audio"[0] == 'a' && "network"[0] == 'n' && "peers"[0] == 'p';
    assert "bitrate"[0] == 'b' && "framerate"[0] == 'f' && "codec"[0] == 'c' && "display"[0] == 'd';
    assert "enabled"[0] == 'e' && "port"[0] == 'p' && "discovery"[0] == 'd';
  }

  /** A number as it is read, or the given one where the key is missing. */
  function Number(v: Setting, otherwise: int): int { if v.Given? then Atoi(v.value) else otherwise }
  function Switch(v: Setting, otherwise: bool): bool { if v.Given? then v.value in {"true", "1"} else otherwise }
  function Wrapped(v: Setting, otherwise: nat, range: nat): nat
    requires range > 0
  {
    if v.Given? then Atoi(v.value) % range else otherwise
  }
  function Words(v: Setting, otherwise: string, size: nat): string
    requires size > 0
  {
    if v.Given? then Limited(v.value, size) else otherwise
  }

  /** All entries in order, on top of any settings. */
  lemma {:induction false} AllEntries(s: Settings, e: seq<Named>)
    ensures var after := ApplyAll(s, e);
            && after.videoBitrate == Wrapped(ValueOf(e, "video", "bitrate"), s.videoBitrate, 4294967296)
            && after.videoFramerate == Wrapped(ValueOf(e, "video", "framerate"), s.videoFramerate, 4294967296)
            && after.videoCodec == Words(ValueOf(e, "video", "codec"), s.videoCodec, 16)
            && after.displayIndex == Number(ValueOf(e, "video", "display"), s.displayIndex)
            && after.audioEnabled == Switch(ValueOf(e, "audio", "enabled"), s.audioEnabled)
            && after.audioBitrate == Wrapped(ValueOf(e, "audio", "bitrate"), s.audioBitrate, 4294967296)
            && after.networkPort == Wrapped(ValueOf(e, "network", "port"), s.networkPort, 65536)
            && after.discoveryEnabled == Switch(ValueOf(e, "network", "discovery"), s.discoveryEnabled)
            && after.lastConnected == Words(ValueOf(e, "peers", "last_connected"), s.lastConnected, 128)
    decreases |e|
  {
    hide Apply, ValueOf, Limited, Atoi;
    if e == [] {
      NoValues();
    } else {
      var before, last := e[..|e| - 1], e[|e| - 1];
      assert e == before + [last];
      AllEntries(s, before);
      OneEntry(ApplyAll(s, before), last);
      ValueOneMore(before, last, "video", "bitrate");
      ValueOneMore(before, last, "video", "framerate");
      ValueOneMore(before, last, "video", "codec");
      ValueOneMore(before, last, "video", "display");
      ValueOneMore(before, last, "audio", "enabled");
      ValueOneMore(before, last, "audio", "bitrate");
      ValueOneMore(before, last, "network", "port");
      ValueOneMore(before, last, "network", "discovery");
      ValueOneMore(before, last, "peers", "last_connected");
    }
  }

  lemma NoValues()
    ensures forall section, key :: ValueOf([], section, key) == Default
  {
  }

  /**
   * Loading a file, field by field: the value of the last entry for the field's key in the field's
   * section, cut to its range, and the documented default where there is no such entry.
   */
  lemma {:induction false} FieldsLoaded(before: Settings, text: string)
    ensures var loaded, e := Load(before, text), Entries(text);
            && loaded.videoBitrate == Wrapped(ValueOf(e, "video", "bitrate"), 10000000, 4294967296)
            && loaded.videoFramerate == Wrapped(ValueOf(e, "video", "framerate"), 60, 4294967296)
            && loaded.videoCodec == Words(ValueOf(e, "video", "codec"), "h264", 16)
            && loaded.displayIndex == Number(ValueOf(e, "video", "display"), 0)
            && loaded.audioEnabled == Switch(ValueOf(e, "audio", "enabled"), true)
            && loaded.audioBitrate == Wrapped(ValueOf(e, "audio", "bitrate"), 64000, 4294967296)
            && loaded.networkPort == Wrapped(ValueOf(e, "network", "port"), 9876, 65536)
            && loaded.discoveryEnabled == Switch(ValueOf(e, "network", "discovery"), true)
            && loaded.lastConnected == Words(ValueOf(e, "peers", "last_connected"), "", 128)
  {
    hide Load, Entries, ApplyAll, ValueOf, Limited, Atoi;
    LoadIsApply(before, text);
    AllEntries(WithDefaults(before), Entries(text));
  }

  /** An empty or missing file gives exactly the defaults, and keeps the history's slots as they were. */
  lemma DefaultsLoaded(before: Settings)
    ensures Load(before, "") == Settings(10000000, 60, "h264", 0, true, 64000, 9876, true, before.history, 0, "")
  {
  }

  /** The slot of the history an entry names, or -1. */
  function SlotOf(e: Named): int {
    if e.section == "peers" && |e.key| >= 5 && e.key[..5] == "peer_" && 0 <= Atoi(e.key[5..]) < 32
    then Atoi(e.key[5..]) else -1
  }

  /** The code of the last entry for slot i. */
  function CodeOf(entries: seq<Named>, i: nat): Setting {
    if entries == [] then Default else
    var last := entries[|entries| - 1];
    if SlotOf(last) == i then Given(last.value) else CodeOf(entries[..|entries| - 1], i)
  }

  /** One more than the highest slot named. */
  function SlotsNamed(entries: seq<Named>): (n: nat)
    ensures n <= 32
    ensures forall e :: e in entries ==> SlotOf(e) < n
    ensures n == 0 || exists e :: e in entries && SlotOf(e) == n - 1
  {
    if entries == [] then 0 else
    var before, last := entries[..|entries| - 1], entries[|entries| - 1];
    assert entries == before + [last];
    var n := SlotsNamed(before);
    if SlotOf(last) >= n then SlotOf(last) + 1 else n
  }

  lemma OnePeerEntry(s: Settings, e: Named)
    requires |s.history| == 32
    ensures var after := Apply(s, e.section, e.key, e.value);
            && after.history == (if SlotOf(e) >= 0 then s.history[SlotOf(e) := Limited(e.value, 128)] else s.history)
            && after.historyCount == (if SlotOf(e) >= s.historyCount then SlotOf(e) + 1 else s.historyCount)
  {
    hide Atoi;
    NamesDiffer();
    assert "last_connected"[0] == 'l' && "peer_"[0] == 'p';
  }

  lemma {:induction false} AllPeerEntries(s: Settings, e: seq<Named>)
    requires |s.history| == 32 && s.historyCount == 0
    ensures var after := ApplyAll(s, e);
            && |after.history| == 32 && after.historyCount == SlotsNamed(e)
            && forall i :: 0 <= i < 32 ==> after.history[i] == Words(CodeOf(e, i), s.history[i], 128)
    decreases |e|
  {
    hide Apply, Limited, SlotOf;
    if e != [] {
      AllPeerEntries(s, e[..|e| - 1]);
      OnePeerEntry(ApplyAll(s, e[..|e| - 1]), e[|e| - 1]);
      SlotBound(e[|e| - 1]);
    }
  }

  lemma SlotBound(e: Named)
    ensures -1 <= SlotOf(e) < 32
  {
  }

  /** The history after loading: each slot holds its last entry, and the count reaches past the highest slot named. */
  lemma {:induction false} HistoryLoaded(before: Settings, text: string)
    requires |before.history| == 32
    ensures var loaded, e := Load(before, text), Entries(text);
            && |loaded.history| == 32 && loaded.historyCount == SlotsNamed(e)
            && forall i :: 0 <= i < 32 ==> loaded.history[i] == Words(CodeOf(e, i), before.history[i], 128)
  {
    hide Load, Entries, ApplyAll, CodeOf, Limited, SlotsNamed;
    LoadIsApply(before, text);
    AllPeerEntries(WithDefaults(before), Entries(text));
  }
}
