/**
 * Resolving the requested pair against the exchange's catalog, and the
 * table name derived from the request.
 */
module Pairs {
  import Ascii

  const TableSuffix: string := "_kraken_trades"

  /** The first index at which x occurs in ps, or -1 when it does not occur. */
  function IndexOf(x: string, ps: seq<string>): (r: int)
    ensures r == -1 <==> x !in ps
    ensures r != -1 ==> 0 <= r < |ps| && ps[r] == x
    ensures r != -1 ==> forall j :: 0 <= j < r ==> ps[j] != x
    decreases |ps|
  {
    if ps == [] then -1
    else if ps[0] == x then 0
    else
      var k := IndexOf(x, ps[1..]);
      if k == -1 then -1 else k + 1
  }

  /** PairExists: a linear scan that returns at the first match. */
  method PairExists(input: string, pairs: seq<string>) returns (r: int)
    ensures r == -1 <==> input !in pairs
    ensures r != -1 ==> 0 <= r < |pairs| && pairs[r] == input
    ensures r != -1 ==> forall j :: 0 <= j < r ==> pairs[j] != input
    ensures r == IndexOf(input, pairs)
  {
    var i := 0;
    while i < |pairs|
      invariant 0 <= i <= |pairs|
      invariant forall j :: 0 <= j < i ==> pairs[j] != input
    {
      if pairs[i] == input {
        return i;
      }
      i := i + 1;
    }
    return -1;
  }

  datatype Outcome =
    | Canonical            // the input is a canonical pair name
    | AltName(index: nat)  // the input is the alternate name at this catalog index
    | NotFound             // neither; the program only prints a message and goes on

  datatype Resolution = Resolution(pair: string, outcome: Outcome)

  /**
   * The three-way choice after the catalog is fetched. `pairs` and `alts`
   * are built in the same loop iteration, so they line up index by index.
   */
  function Resolve(desired: string, pairs: seq<string>, alts: seq<string>): (r: Resolution)
    requires |pairs| == |alts|
    ensures desired in pairs ==> r == Resolution(desired, Canonical)
    ensures desired !in pairs && desired in alts ==>
      && r.outcome.AltName?
      && r.outcome.index < |alts|
      && alts[r.outcome.index] == desired
      && (forall j :: 0 <= j < r.outcome.index ==> alts[j] != desired)
      && r.pair == pairs[r.outcome.index]
    ensures desired !in pairs && desired !in alts ==> r == Resolution(desired, NotFound)
  {
    if IndexOf(desired, pairs) != -1 then Resolution(desired, Canonical)
    else
      var i := IndexOf(desired, alts);
      if i != -1 then Resolution(pairs[i], AltName(i)) else Resolution(desired, NotFound)
  }

  /** What the program settles on at start-up from the configured name. */
  datatype Config = Config(resolution: Resolution, dbName: string, table: string)

  /**
   * The configured name is upper-cased into the desired pair; the database
   * and table names come from that upper-cased input, before any
   * alternate-name resolution replaces the desired pair.
   */
  function Configure(name: string, pairs: seq<string>, alts: seq<string>): (c: Config)
    requires |pairs| == |alts|
  {
    var desired := Ascii.ToUpper(name);
    var dbName := Ascii.ToLower(desired);
    Config(Resolve(desired, pairs, alts), dbName, dbName + TableSuffix)
  }

  /** The table name is the configured name in lower case plus the suffix, whatever the catalog says. */
  lemma TableFromInput(name: string, pairs: seq<string>, alts: seq<string>)
    requires |pairs| == |alts|
    ensures Configure(name, pairs, alts).table == Ascii.ToLower(name) + TableSuffix
    ensures Configure(name, pairs, alts).resolution == Resolve(Ascii.ToUpper(name), pairs, alts)
  {
  }

  /** An alternate name changes the pair every request names, but not the table written to. */
  lemma AltNameKeepsTable()
    ensures var c := Configure("xbtusd", ["XXBTZUSD"], ["XBTUSD"]);
      c.resolution == Resolution("XXBTZUSD", AltName(0)) && c.table == "xbtusd_kraken_trades"
  {
  }
}
