/** The ban registry (`checkIPBan`): a table of bans keyed by the client's
    hashed identity, with optional expiry, where an expired ban is deleted by
    the first lookup that sees it. The same logic appears in the shared
    security module, in create-thread and in check-ban. */
module Bans {
  import opened Wrappers

  /** A row of `banned_ips`; instants are integer milliseconds, a null
      `expires_at` is `None`. */
  datatype BanEntry = BanEntry(
    id: string,
    ipHash: string,
    reason: Option<string>,
    bannedAt: int,
    expiresAt: Option<int>)

  /** `data.reason || 'IP banned'` */
  function ReasonOf(e: BanEntry): (r: string)
    ensures r != ""
    ensures Truthy(e.reason) ==> r == e.reason.value
  {
    if Truthy(e.reason) then e.reason.value else "IP banned"
  }

  /** `data.expires_at && new Date(data.expires_at) < new Date()` */
  predicate Expired(e: BanEntry, now: int) {
    e.expiresAt.Some? && e.expiresAt.value < now
  }

  /** The hash is non-empty and carries a ban that has not run out. */
  predicate ActiveBan(table: map<string, BanEntry>, ipHash: string, now: int) {
    ipHash != "" && ipHash in table && !Expired(table[ipHash], now)
  }

  /** What one lookup finds for a hash. */
  datatype Finding = NoEntry | ExpiredEntry(entry: BanEntry) | ActiveEntry(entry: BanEntry)

  function Find(table: map<string, BanEntry>, ipHash: string, now: int): (f: Finding)
    ensures f.NoEntry? <==> ipHash !in table
    ensures f.ExpiredEntry? <==> ipHash in table && Expired(table[ipHash], now)
    ensures !f.NoEntry? ==> f.entry == table[ipHash]
  {
    if ipHash !in table then NoEntry
    else if Expired(table[ipHash], now) then ExpiredEntry(table[ipHash])
    else ActiveEntry(table[ipHash])
  }

  /** A lookup's verdict and the table it leaves behind. */
  datatype Lookup = Lookup(table: map<string, BanEntry>, result: CheckResult)

  /** `checkIPBan(ipHash)` at `now`. An empty hash is allowed without a
      lookup; an expired entry is deleted and allowed; an active one denies
      with its reason. */
  function BanLookup(table: map<string, BanEntry>, ipHash: string, now: int): (l: Lookup)
    ensures l.result.Denied? <==> ipHash != "" && ipHash in table && !Expired(table[ipHash], now)
    ensures l.result.Denied? ==> l.result == Denied(ReasonOf(table[ipHash]), None)
    ensures l.table == if ipHash != "" && ipHash in table && Expired(table[ipHash], now)
                       then table - {ipHash} else table
    ensures ipHash != "" && ipHash in l.table ==> !Expired(l.table[ipHash], now)
  {
    if ipHash == "" then Lookup(table, Allowed)
    else
      match Find(table, ipHash, now)
      case NoEntry => Lookup(table, Allowed)
      case ExpiredEntry(_) => Lookup(table - {ipHash}, Allowed)
      case ActiveEntry(e) => Lookup(table, Denied(ReasonOf(e), None))
  }

  /** Lazy expiry is idempotent: a second lookup at the same instant finds
      no expired entry, deletes nothing more and gives the same verdict. */
  lemma {:induction false} LookupIdempotent(table: map<string, BanEntry>, ipHash: string, now: int)
    ensures var first := BanLookup(table, ipHash, now);
            BanLookup(first.table, ipHash, now) == first
  {
    var first := BanLookup(table, ipHash, now);
    if ipHash != "" && ipHash in table && Expired(table[ipHash], now) {
      assert ipHash !in first.table;
    }
  }

  /** A ban without an expiry denies at every instant. */
  lemma PermanentBanAlwaysDenies(table: map<string, BanEntry>, ipHash: string, now: int)
    requires ipHash != "" && ipHash in table && table[ipHash].expiresAt.None?
    ensures BanLookup(table, ipHash, now).result == Denied(ReasonOf(table[ipHash]), None)
    ensures BanLookup(table, ipHash, now).table == table
  {
  }

  /** A lookup only ever deletes the entry of the hash it was asked about. */
  lemma OtherBansUntouched(table: map<string, BanEntry>, ipHash: string, other: string, now: int)
    requires other != ipHash && other in table
    ensures other in BanLookup(table, ipHash, now).table
    ensures BanLookup(table, ipHash, now).table[other] == table[other]
  {
  }

  /** The `banned_ips` table, held as a map from hash to row. */
  class BanTable {
    var entries: map<string, BanEntry>

    constructor (initial: map<string, BanEntry>)
      ensures entries == initial
    {
      entries := initial;
    }

    method CheckIPBan(ipHash: string, now: int) returns (r: CheckResult)
      modifies this
      ensures var l := BanLookup(old(entries), ipHash, now);
              r == l.result && entries == l.table
    {
      if ipHash == "" {
        return Allowed;
      }
      if ipHash in entries {
        var data := entries[ipHash];
        if data.expiresAt.Some? && data.expiresAt.value < now {
          entries := entries - {ipHash};
          return Allowed;
        }
        return Denied(ReasonOf(data), None);
      }
      return Allowed;
    }
  }
}
