/**
 * Channel metadata as PCP atoms. An `AtomCollection` is a finite map from atom
 * names to values; `Update` overlays another collection on it (the incoming
 * value wins) and `RemoveByName` drops one name. `ChannelInfo` and
 * `ChannelTrack` wrap such a collection (their `Extra`).
 */
module Atoms {
  import opened Text

  type AtomName = string

  datatype AtomValue = IntAtom(n: int) | StringAtom(s: string) | BytesAtom(data: seq<Byte>)

  type AtomCollection = map<AtomName, AtomValue>

  /** `Atom.PCP_CHAN_INFO_BITRATE`. */
  const BitrateName: AtomName := "bitr"

  /** `AtomCollection.Update`: the incoming atoms replace or join the base's. */
  function Update(base: AtomCollection, incoming: AtomCollection): (r: AtomCollection)
    ensures r.Keys == base.Keys + incoming.Keys
    ensures forall k :: k in incoming ==> r[k] == incoming[k]
    ensures forall k :: k in base && k !in incoming ==> r[k] == base[k]
  {
    base + incoming
  }

  /** `AtomCollection.RemoveByName`. */
  function RemoveByName(c: AtomCollection, name: AtomName): (r: AtomCollection)
    ensures r.Keys == c.Keys - {name}
    ensures forall k :: k in r ==> r[k] == c[k]
  {
    c - {name}
  }

  datatype ChannelInfo = ChannelInfo(extra: AtomCollection)
  {
    /** `ChannelInfo.Bitrate`: the integer bitrate atom, 0 when there is none. */
    function Bitrate(): int
    {
      if BitrateName in extra && extra[BitrateName].IntAtom? then extra[BitrateName].n else 0
    }
  }

  datatype ChannelTrack = ChannelTrack(extra: AtomCollection)

  /** `HTTPSourceConnection.UpdateChannelInfo` (lines 214-223). */
  function UpdateChannelInfo(a: ChannelInfo, b: ChannelInfo, useContentBitrate: bool): (r: ChannelInfo)
    ensures r.extra.Keys == a.extra.Keys + b.extra.Keys - if useContentBitrate || BitrateName in a.extra then {} else {BitrateName}
    ensures forall k :: k in b.extra && (useContentBitrate || k != BitrateName) ==> r.extra[k] == b.extra[k]
    ensures forall k :: k in a.extra && (k !in b.extra || (!useContentBitrate && k == BitrateName)) ==> r.extra[k] == a.extra[k]
  {
    var incoming := if useContentBitrate then b.extra else RemoveByName(b.extra, BitrateName);
    ChannelInfo(Update(a.extra, incoming))
  }

  /** `HTTPSourceConnection.UpdateChannelTrack` (lines 225-230). */
  function UpdateChannelTrack(a: ChannelTrack, b: ChannelTrack): (r: ChannelTrack)
    ensures r.extra.Keys == a.extra.Keys + b.extra.Keys
    ensures forall k :: k in b.extra ==> r.extra[k] == b.extra[k]
    ensures forall k :: k in a.extra && k !in b.extra ==> r.extra[k] == a.extra[k]
  {
    ChannelTrack(Update(a.extra, b.extra))
  }

  // ---------------------------------------------------------------------------
  // Properties of the merge

  /** Overlaying the same atoms twice is overlaying them once. */
  lemma UpdateIdempotent(a: AtomCollection, b: AtomCollection)
    ensures Update(Update(a, b), b) == Update(a, b)
  {
  }

  /** Two overlays in a row are one overlay of the second on the first. */
  lemma UpdateAssociative(a: AtomCollection, b: AtomCollection, c: AtomCollection)
    ensures Update(Update(a, b), c) == Update(a, Update(b, c))
  {
  }

  /** An empty update changes nothing. */
  lemma UpdateWithNothing(a: AtomCollection)
    ensures Update(a, map[]) == a
  {
  }

  lemma UpdateChannelInfoIdempotent(a: ChannelInfo, b: ChannelInfo, useContentBitrate: bool)
    ensures UpdateChannelInfo(UpdateChannelInfo(a, b, useContentBitrate), b, useContentBitrate) ==
            UpdateChannelInfo(a, b, useContentBitrate)
  {
  }

  lemma UpdateChannelTrackIdempotent(a: ChannelTrack, b: ChannelTrack)
    ensures UpdateChannelTrack(UpdateChannelTrack(a, b), b) == UpdateChannelTrack(a, b)
  {
  }

  /** Without content bitrate the channel keeps its own bitrate atom, whatever the stream announces. */
  lemma BitrateKept(a: ChannelInfo, b: ChannelInfo)
    ensures BitrateName in UpdateChannelInfo(a, b, false).extra <==> BitrateName in a.extra
    ensures BitrateName in a.extra ==> UpdateChannelInfo(a, b, false).extra[BitrateName] == a.extra[BitrateName]
    ensures UpdateChannelInfo(a, b, false).Bitrate() == a.Bitrate()
  {
  }

  /** With content bitrate the stream's bitrate, when it announces one, replaces the channel's. */
  lemma BitrateTaken(a: ChannelInfo, b: ChannelInfo)
    requires BitrateName in b.extra
    ensures UpdateChannelInfo(a, b, true).Bitrate() == b.Bitrate()
  {
  }

  /** The two ways of merging agree except on the bitrate atom. */
  lemma BitrateIsTheOnlyDifference(a: ChannelInfo, b: ChannelInfo, k: AtomName)
    requires k != BitrateName
    ensures k in UpdateChannelInfo(a, b, true).extra <==> k in UpdateChannelInfo(a, b, false).extra
    ensures k in UpdateChannelInfo(a, b, true).extra ==>
              UpdateChannelInfo(a, b, true).extra[k] == UpdateChannelInfo(a, b, false).extra[k]
  {
  }
}
