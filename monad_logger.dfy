/**
 * The Monad ledger client: how a memory's metadata is normalised before it
 * is logged on chain, how the transaction outcome is reported, and how a
 * stored record is read back. Building, signing and sending transactions
 * are abstracted as an outcome supplied by the caller.
 */
module MonadLogger {
  import opened Wrappers
  import opened Text
  import opened Bytes
  import MetadataExtractor

  const MaxTitle: nat := 100
  const MaxSummary: nat := 200
  const Ellipsis: string := "..."

  /** The contract's operation codes. */
  const InsertOp: int := 0
  const SearchOp: int := 1

  /** A memory record as `get_memory` returns it. */
  datatype Memory = Memory(
    user: string, opType: int, title: string, summary: string,
    tags: string, contentHash: string, timestamp: int)

  /** The struct `getMemory(id)` returns, positionally: user, opType, title, summary, tags, bytes32 hash, timestamp. */
  type RawMemory = (string, int, string, string, string, seq<Byte>, int)

  /** `get_memory(memory_id)` applied to the struct the contract returned. */
  function GetMemory(raw: RawMemory): Memory
  {
    Memory(raw.0, raw.1, raw.2, raw.3, raw.4, "0x" + Hex(raw.5), raw.6)
  }

  /** The hash `get_memory` reports is "0x" and the hex of the stored bytes, which decodes back to them. */
  lemma GetMemoryHash(raw: RawMemory)
    ensures var m := GetMemory(raw);
      |m.contentHash| == 2 + 2 * |raw.5| && m.contentHash[..2] == "0x" && FromHex(m.contentHash[2..]) == Some(raw.5)
  {
    var h := GetMemory(raw).contentHash;
    assert h[2..] == Hex(raw.5);
    FromHexOfHex(raw.5);
  }

  /**
   * `_log_memory`'s length guard: a string longer than `max` is cut to its
   * first `max - 3` characters followed by "...".
   */
  function Truncate(s: string, max: nat): (r: string)
    requires max >= |Ellipsis|
    ensures |r| <= max
    ensures |s| <= max ==> r == s
    ensures |s| > max ==> |r| == max && r[..max - 3] == s[..max - 3] && r[max - 3..] == Ellipsis
  {
    if |s| > max then
      var r := s[..max - 3] + Ellipsis;
      assert r[..max - 3] == s[..max - 3];
      r
    else s
  }

  /** Truncating twice is truncating once. */
  lemma TruncateIdempotent(s: string, max: nat)
    requires max >= |Ellipsis|
    ensures Truncate(Truncate(s, max), max) == Truncate(s, max)
  {
  }

  /** `content_hash[2:]` when it starts with "0x", else unchanged: one prefix at most is removed. */
  function StripHexPrefix(h: string): (r: string)
    ensures StartsWith(h, "0x") ==> h == "0x" + r
    ensures !StartsWith(h, "0x") ==> r == h
  {
    if StartsWith(h, "0x") then h[2..] else h
  }

  /** The arguments `logMemory` is called with. */
  datatype LogRequest = LogRequest(opType: int, title: string, summary: string, tags: string, contentHash: seq<Byte>)

  datatype LogError =
    | InvalidHash       // `bytes.fromhex` raised ValueError
    | BuildFailed       // building the transaction raised; re-raised
    | SendFailed        // sending the raw transaction raised; re-raised

  /** What happened to the receipt after the transaction was sent. */
  datatype Receipt = Confirmed | Reverted | TimedOut

  /** What the ledger did with a request, as far as `_log_memory` can observe. */
  datatype TxOutcome =
    | BuildError
    | SendError
    | Sent(txHash: string, receipt: Receipt)

  /** Lines 138-147 of `_log_memory`: the request built from the caller's arguments, or the hex error. */
  function Normalize(opType: int, title: string, summary: string, tags: string, contentHash: string): (r: Result<LogRequest, LogError>)
    ensures r.Ok? ==> |r.value.title| <= MaxTitle && |r.value.summary| <= MaxSummary
    ensures r.Ok? ==> r.value.opType == opType && r.value.tags == tags
    ensures r.Err? <==> FromHex(StripHexPrefix(contentHash)).None?
  {
    match FromHex(StripHexPrefix(contentHash))
    case None => Err(InvalidHash)
    case Some(bytes) => Ok(LogRequest(opType, Truncate(title, MaxTitle), Truncate(summary, MaxSummary), tags, bytes))
  }

  /** `_log_memory`, with the transaction's fate supplied by `ledger`. */
  function LogMemory(opType: int, title: string, summary: string, tags: string, contentHash: string,
                     ledger: LogRequest -> TxOutcome): (r: Result<string, LogError>)
  {
    match Normalize(opType, title, summary, tags, contentHash)
    case Err(e) => Err(e)
    case Ok(req) =>
      match ledger(req)
      case BuildError => Err(BuildFailed)
      case SendError => Err(SendFailed)
      case Sent(txHash, _) => Ok(txHash)
  }

  /** `log_insert`. */
  function LogInsert(title: string, summary: string, tags: string, contentHash: string, ledger: LogRequest -> TxOutcome): Result<string, LogError>
  {
    LogMemory(InsertOp, title, summary, tags, contentHash, ledger)
  }

  /** `log_search`. */
  function LogSearch(title: string, summary: string, tags: string, contentHash: string, ledger: LogRequest -> TxOutcome): Result<string, LogError>
  {
    LogMemory(SearchOp, title, summary, tags, contentHash, ledger)
  }

  /**
   * Once the transaction is sent its hash is returned, whatever the
   * receipt says; a failure to build or send is an error, and so is a
   * hash that is not hexadecimal (nothing is then submitted).
   */
  lemma LogMemoryOutcome(opType: int, title: string, summary: string, tags: string, contentHash: string,
                         ledger: LogRequest -> TxOutcome)
    ensures var r := LogMemory(opType, title, summary, tags, contentHash, ledger);
      match Normalize(opType, title, summary, tags, contentHash)
      case Err(_) => r == Err(InvalidHash)
      case Ok(req) =>
        && (ledger(req).Sent? <==> r.Ok?)
        && (ledger(req).Sent? ==> r.value == ledger(req).txHash)
        && (ledger(req).BuildError? <==> r == Err(BuildFailed))
        && (ledger(req).SendError? <==> r == Err(SendFailed))
  {
  }

  /**
   * `log_insert` and `log_search` differ only in the operation code they
   * submit, and both refuse a hash that is not hexadecimal.
   */
  lemma LogOperations(title: string, summary: string, tags: string, contentHash: string, ledger: LogRequest -> TxOutcome)
    ensures LogInsert(title, summary, tags, contentHash, ledger)
      == LogSearch(title, summary, tags, contentHash, (req: LogRequest) => ledger(req.(opType := InsertOp)))
    ensures FromHex(StripHexPrefix(contentHash)).None? ==>
      LogInsert(title, summary, tags, contentHash, ledger) == Err(InvalidHash)
      && LogSearch(title, summary, tags, contentHash, ledger) == Err(InvalidHash)
  {
  }

  /** What an outcome of the ledger is reported as. */
  predicate Reports(o: TxOutcome, r: Result<string, LogError>) {
    match o
    case Sent(txHash, _) => r == Ok(txHash)
    case BuildError => r == Err(BuildFailed)
    case SendError => r == Err(SendFailed)
  }

  /** `log_insert` submits operation 0 with the title and summary truncated, the tags and hash bytes as given. */
  lemma LogInsertSubmits(title: string, summary: string, tags: string, contentHash: string, bytes: seq<Byte>,
                         ledger: LogRequest -> TxOutcome)
    requires FromHex(StripHexPrefix(contentHash)) == Some(bytes)
    ensures Reports(ledger(LogRequest(0, Truncate(title, 100), Truncate(summary, 200), tags, bytes)),
                    LogInsert(title, summary, tags, contentHash, ledger))
  {
  }

  /** `log_search` submits operation 1 with the title and summary truncated, the tags and hash bytes as given. */
  lemma LogSearchSubmits(title: string, summary: string, tags: string, contentHash: string, bytes: seq<Byte>,
                         ledger: LogRequest -> TxOutcome)
    requires FromHex(StripHexPrefix(contentHash)) == Some(bytes)
    ensures Reports(ledger(LogRequest(1, Truncate(title, 100), Truncate(summary, 200), tags, bytes)),
                    LogSearch(title, summary, tags, contentHash, ledger))
  {
  }

  /**
   * The service logs titles with a short prefix ("Search: ", "Chat: "):
   * the logged title still starts with the prefix, and is the whole
   * prefixed title when that fits.
   */
  lemma PrefixedTitleFits(prefix: string, title: string)
    requires |prefix| <= MaxTitle - |Ellipsis|
    ensures StartsWith(Truncate(prefix + title, MaxTitle), prefix)
    ensures |prefix| + |title| <= MaxTitle ==> Truncate(prefix + title, MaxTitle) == prefix + title
  {
    var t := Truncate(prefix + title, MaxTitle);
    if |prefix + title| > MaxTitle {
      assert t[..|prefix|] == t[..MaxTitle - 3][..|prefix|];
    }
    assert t[..|prefix|] == prefix;
  }

  /**
   * A hash of the form `extract_metadata` produces ("0x" and 32 lower-case
   * hex byte pairs) is logged as 32 bytes and reads back identically.
   */
  lemma {:induction false} HashRoundTrip(h: string, raw: RawMemory)
    requires |h| == 66 && h[..2] == "0x" && IsLowerHex(h[2..])
    requires FromHex(StripHexPrefix(h)) == Some(raw.5)
    ensures |raw.5| == 32
    ensures GetMemory(raw).contentHash == h
  {
    assert StartsWith(h, "0x");
    assert StripHexPrefix(h) == h[2..];
    HexOfFromHex(h[2..]);
    assert h == "0x" + h[2..];
  }

  /**
   * The hash `extract_metadata` computes is logged as exactly the SHA-256
   * digest of the text, and `get_memory` then reports the same hash string.
   */
  lemma MetadataHashRoundTrip(content: string, sha256: seq<Byte> -> Digest, raw: RawMemory)
    requires raw.5 == sha256(Utf8(content))
    ensures var h := MetadataExtractor.ContentHash(content, sha256);
      FromHex(StripHexPrefix(h)) == Some(raw.5) && GetMemory(raw).contentHash == h
  {
    var h := MetadataExtractor.ContentHash(content, sha256);
    assert StripHexPrefix(h) == Hex(raw.5);
    FromHexOfHex(raw.5);
    HashRoundTrip(h, raw);
  }
}
