/** Whether a scheduled check may skip loading a page (server/feed-assist.ts). */
module FeedAssist {
  import opened Wrappers

  const MAX_AGE_MS := 24 * 60 * 60 * 1000
  const CLOCK_SKEW_MS := 10 * 60 * 1000

  datatype Entry = Entry(published: Option<int>, magnet: Option<string>)

  /** The torrent's info-hash in a magnet link, if it has one. */
  type InfoHash = string -> Option<string>

  function HashOf(infoHash: InfoHash, magnet: Option<string>): Option<string> {
    if magnet.Some? then infoHash(magnet.value) else None
  }

  predicate FeedShowsNoChange(
    infoHash: InfoHash, verifiedAt: Option<int>, storedMagnet: Option<string>,
    continuousSince: Option<int>, entry: Option<Entry>, now: int)
  {
    if verifiedAt.None? || now - verifiedAt.value >= MAX_AGE_MS then false
    else if continuousSince.None? || continuousSince.value > verifiedAt.value - CLOCK_SKEW_MS then false
    else if entry.None? then true
    else if entry.value.published.None? || entry.value.published.value > verifiedAt.value - CLOCK_SKEW_MS then false
    else
      var listed, stored := HashOf(infoHash, entry.value.magnet), HashOf(infoHash, storedMagnet);
      listed.None? || stored.None? || listed == stored
  }

  /** Both torrents are known, and they are not the same. */
  predicate OtherTorrent(infoHash: InfoHash, listed: Option<string>, stored: Option<string>) {
    && listed.Some? && stored.Some?
    && infoHash(listed.value).Some? && infoHash(stored.value).Some? && infoHash(listed.value) != infoHash(stored.value)
  }

  /**
   * Exactly when a load is skipped: the page was loaded less than a day ago, the feed has been followed since ten
   * minutes before that, and the topic's entry, if any, is dated by then and does not name another torrent.
   */
  lemma SkippedExactly(
    infoHash: InfoHash, verifiedAt: Option<int>, storedMagnet: Option<string>, continuousSince: Option<int>, entry: Option<Entry>, now: int)
    ensures FeedShowsNoChange(infoHash, verifiedAt, storedMagnet, continuousSince, entry, now) <==>
            && verifiedAt.Some? && now - verifiedAt.value < 86_400_000
            && continuousSince.Some? && continuousSince.value <= verifiedAt.value - 600_000
            && (entry.Some? ==>
                  && entry.value.published.Some? && entry.value.published.value <= verifiedAt.value - 600_000
                  && !OtherTorrent(infoHash, entry.value.magnet, storedMagnet))
  {
  }
}
