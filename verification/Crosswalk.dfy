/** The in-memory crosswalk index: three append-only tables that can be frozen. */
module Crosswalk {
  import opened Seqs

  datatype MatchType = Direct | Crosswalked | Inferred

  /** One row: a code of the source system, the code it maps to, and how good the match is. */
  datatype Mapping = Mapping(source: string, target: string, matchType: MatchType, confidence: real)

  type Table = map<string, seq<Mapping>>

  function Lookup(table: Table, code: string): seq<Mapping> {
    if code in table then table[code] else []
  }

  function Add(table: Table, mapping: Mapping): Table {
    table[mapping.source := Lookup(table, mapping.source) + [mapping]]
  }

  function TableOf(log: seq<Mapping>): Table {
    if log == [] then map[] else Add(TableOf(log[..|log| - 1]), log[|log| - 1])
  }

  function From(code: string): Mapping -> bool {
    (m: Mapping) => m.source == code
  }

  /** A lookup returns what was added under the code, in the order it was added. */
  lemma {:induction false} LookupIsFilteredLog(log: seq<Mapping>, code: string)
    ensures Lookup(TableOf(log), code) == Filter(From(code), log)
  {
    if log == [] {
    } else {
      var before, last := log[..|log| - 1], log[|log| - 1];
      LookupIsFilteredLog(before, code);
      FilterAppend(From(code), before, [last]);
      assert log == before + [last];
    }
  }

  class CrosswalkIndex {
    var socToNaics: Table
    var cipToNaics: Table
    var cipToSoc: Table
    var frozen: bool
    /** Everything that was added, per table. */
    ghost var socNaicsLog: seq<Mapping>
    ghost var cipNaicsLog: seq<Mapping>
    ghost var cipSocLog: seq<Mapping>

    ghost predicate Valid()
      reads this
    {
      && socToNaics == TableOf(socNaicsLog)
      && cipToNaics == TableOf(cipNaicsLog)
      && cipToSoc == TableOf(cipSocLog)
    }

    constructor ()
      ensures Valid() && !frozen && socNaicsLog == cipNaicsLog == cipSocLog == []
    {
      socToNaics, cipToNaics, cipToSoc, frozen := map[], map[], map[], false;
      socNaicsLog, cipNaicsLog, cipSocLog := [], [], [];
    }

    /** A frozen index refuses additions. */
    method AddSocNaics(mapping: Mapping) returns (ok: bool)
      requires Valid()
      modifies this`socToNaics, this`socNaicsLog
      ensures Valid() && ok == !frozen
      ensures socNaicsLog == old(socNaicsLog) + if ok then [mapping] else []
    {
      if frozen {
        return false;
      }
      socToNaics := Add(socToNaics, mapping);
      socNaicsLog := socNaicsLog + [mapping];
      return true;
    }

    method AddCipNaics(mapping: Mapping) returns (ok: bool)
      requires Valid()
      modifies this`cipToNaics, this`cipNaicsLog
      ensures Valid() && ok == !frozen
      ensures cipNaicsLog == old(cipNaicsLog) + if ok then [mapping] else []
    {
      if frozen {
        return false;
      }
      cipToNaics := Add(cipToNaics, mapping);
      cipNaicsLog := cipNaicsLog + [mapping];
      return true;
    }

    method AddCipSoc(mapping: Mapping) returns (ok: bool)
      requires Valid()
      modifies this`cipToSoc, this`cipSocLog
      ensures Valid() && ok == !frozen
      ensures cipSocLog == old(cipSocLog) + if ok then [mapping] else []
    {
      if frozen {
        return false;
      }
      cipToSoc := Add(cipToSoc, mapping);
      cipSocLog := cipSocLog + [mapping];
      return true;
    }

    method Freeze()
      modifies this`frozen
      ensures frozen
    {
      frozen := true;
    }

    method GetNaicsForSoc(code: string) returns (r: seq<Mapping>)
      requires Valid()
      ensures r == Filter(From(code), socNaicsLog)
    {
      LookupIsFilteredLog(socNaicsLog, code);
      r := Lookup(socToNaics, code);
    }

    method GetNaicsForCip(code: string) returns (r: seq<Mapping>)
      requires Valid()
      ensures r == Filter(From(code), cipNaicsLog)
    {
      LookupIsFilteredLog(cipNaicsLog, code);
      r := Lookup(cipToNaics, code);
    }

    method GetSocForCip(code: string) returns (r: seq<Mapping>)
      requires Valid()
      ensures r == Filter(From(code), cipSocLog)
    {
      LookupIsFilteredLog(cipSocLog, code);
      r := Lookup(cipToSoc, code);
    }
  }
}
