/**
 * The statistics collector: a cache from destination address to the last "Sent" byte count
 * reported by `tc -s -pretty filter show`. Running the command and the regular expression are
 * outside the model; one poll is given as the sequence of (address, digits) captures the
 * expression produced, or as `None` when the command failed.
 */
module Statistic {
  import opened Wrappers
  import opened Decimal
  import opened SyncMaps

  /** One capture of `dst (\S+)/\S+ ... Sent (\d+)`: the address and the byte count's digits. */
  datatype Match = Match(ip: string, sent: DigitString)

  datatype LookupError = UnknownIP(ip: string)

  /** The cache after applying `matches` to `cache` in order, each one a `Set`. */
  function ApplyMatches(cache: map<string, nat>, matches: seq<Match>): (r: map<string, nat>)
    ensures forall ip :: ip in cache ==> ip in r
    ensures forall j :: 0 <= j < |matches| ==> matches[j].ip in r
  {
    if matches == [] then cache
    else
      var last := matches[|matches| - 1];
      ApplyMatches(cache, matches[..|matches| - 1])[last.ip := Value(last.sent)]
  }

  /** True when `j` is the last capture in `matches` for `ip`. */
  predicate LastFor(matches: seq<Match>, ip: string, j: nat) {
    j < |matches| && matches[j].ip == ip &&
    forall k :: j < k < |matches| ==> matches[k].ip != ip
  }

  /** The addresses a poll captures. */
  function Captured(matches: seq<Match>): set<string> {
    set j | 0 <= j < |matches| :: matches[j].ip
  }

  /** After a poll the cache holds exactly the addresses it held before plus those captured. */
  lemma {:induction false} ApplyMatchesKeys(cache: map<string, nat>, matches: seq<Match>)
    ensures ApplyMatches(cache, matches).Keys == cache.Keys + Captured(matches)
  {
    if matches != [] {
      var init := matches[..|matches| - 1];
      ApplyMatchesKeys(cache, init);
      assert Captured(matches) == Captured(init) + {matches[|matches| - 1].ip} by {
        forall x | x in Captured(matches) ensures x in Captured(init) + {matches[|matches| - 1].ip} {
          var j :| 0 <= j < |matches| && matches[j].ip == x;
          if j < |matches| - 1 { assert init[j] == matches[j]; }
        }
        forall x | x in Captured(init) ensures x in Captured(matches) {
          var j :| 0 <= j < |init| && init[j].ip == x;
          assert matches[j] == init[j];
        }
      }
    }
  }

  /** Last write wins: a captured address takes the value of its last capture in the poll. */
  lemma {:induction false} ApplyMatchesLast(cache: map<string, nat>, matches: seq<Match>, j: nat)
    requires j < |matches| && LastFor(matches, matches[j].ip, j)
    ensures matches[j].ip in ApplyMatches(cache, matches)
    ensures ApplyMatches(cache, matches)[matches[j].ip] == Value(matches[j].sent)
  {
    var n := |matches|;
    if j < n - 1 {
      var init := matches[..n - 1];
      assert init[j] == matches[j];
      assert LastFor(init, init[j].ip, j);
      ApplyMatchesLast(cache, init, j);
    }
  }

  /** An address absent from the poll keeps its previous entry, or stays absent. */
  lemma {:induction false} ApplyMatchesUntouched(cache: map<string, nat>, matches: seq<Match>, ip: string)
    requires ip !in Captured(matches)
    ensures ip in ApplyMatches(cache, matches) <==> ip in cache
    ensures ip in cache ==> ApplyMatches(cache, matches)[ip] == cache[ip]
  {
    if matches != [] {
      var init := matches[..|matches| - 1];
      assert Captured(init) <= Captured(matches) by {
        forall x | x in Captured(init) ensures x in Captured(matches) {
          var j :| 0 <= j < |init| && init[j].ip == x;
          assert matches[j] == init[j];
        }
      }
      assert matches[|matches| - 1].ip in Captured(matches);
      ApplyMatchesUntouched(cache, init, ip);
    }
  }

  /** A poll leaves every address present before it still present. */
  lemma PollNeverEvicts(cache: map<string, nat>, matches: seq<Match>)
    ensures cache.Keys <= ApplyMatches(cache, matches).Keys
  {
    ApplyMatchesKeys(cache, matches);
  }

  /** A duplicate address in one poll ends with the value of its later capture. */
  lemma DuplicateTakesLast(cache: map<string, nat>, a: Match, b: Match)
    requires a.ip == b.ip
    ensures ApplyMatches(cache, [a, b])[a.ip] == Value(b.sent)
  {
    assert [a, b][..1] == [a];
    assert [a][..0] == [];
  }

  class Service {
    const cache: SyncMap<string, nat>
    const interfaceName: string

    /**
     * `NewService` without its polling goroutine: an empty cache for `linkName`. A missing
     * `*big.Int` is represented by the zero value 0, which `GetBytesByIP` never returns.
     */
    constructor (linkName: string)
      ensures interfaceName == linkName && fresh(cache) && cache.items == map[]
    {
      interfaceName := linkName;
      cache := new SyncMap(0);
    }

    /** The cached count for `ip`, or an error when the address has not been sampled. */
    method GetBytesByIP(ip: string) returns (r: Result<nat, LookupError>)
      ensures r.Ok? <==> ip in cache.items
      ensures r.Ok? ==> r.value == cache.items[ip]
      ensures r.Err? ==> r.error == UnknownIP(ip)
    {
      var bytes, ok := cache.Get(ip);
      if ok {
        return Ok(bytes);
      }
      return Err(UnknownIP(ip));
    }

    /** Evicts the cached count for `ip`; other addresses keep theirs. */
    method DelBytesByIP(ip: string)
      modifies cache
      ensures cache.items == old(cache.items) - {ip}
    {
      cache.Del(ip);
    }

    /**
     * One tick of `readStats`. A failed command aborts the collector (Go panics) before any
     * update; otherwise each capture is parsed as a decimal number and stored in order.
     */
    method ReadStatsTick(output: Option<seq<Match>>) returns (aborted: bool)
      modifies cache
      ensures aborted <==> output.None?
      ensures aborted ==> cache.items == old(cache.items)
      ensures !aborted ==> cache.items == ApplyMatches(old(cache.items), output.value)
    {
      if output.None? {
        return true;
      }
      var matches := output.value;
      for i := 0 to |matches|
        invariant cache.items == ApplyMatches(old(cache.items), matches[..i])
      {
        var bytes := Value(matches[i].sent);
        cache.Set(matches[i].ip, bytes);
        assert matches[..i + 1][..i] == matches[..i];
      }
      assert matches[..|matches|] == matches;
      return false;
    }
  }

  /** After an eviction the address is reported unknown until a poll captures it again. */
  method EvictThenLookup(s: Service, ip: string, later: seq<Match>) returns (before: Result<nat, LookupError>, after: Result<nat, LookupError>)
    modifies s.cache
    ensures before == Err(UnknownIP(ip))
    ensures after.Ok? <==> ip in Captured(later)
  {
    s.DelBytesByIP(ip);
    before := s.GetBytesByIP(ip);
    var aborted := s.ReadStatsTick(Some(later));
    after := s.GetBytesByIP(ip);
    ApplyMatchesKeys(old(s.cache.items) - {ip}, later);
  }
}
