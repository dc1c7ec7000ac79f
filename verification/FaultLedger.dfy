/** The fault ledger as the slice the program prunes in place (cmd/projector/tracker.go). */
module FaultLedgers {
  import opened TrackerSpec

  class FaultLedger {
    var buf: array<LedgerFault>
    var len: nat

    ghost predicate Valid()
      reads this
    {
      len <= buf.Length
    }

    ghost function Contents(): seq<LedgerFault>
      requires Valid()
      reads this, buf
    {
      buf[..len]
    }

    constructor ()
      ensures Valid() && fresh(buf) && Contents() == []
    {
      buf := new LedgerFault[0];
      len := 0;
    }

    /** Appends one fault, in a larger array when the current one is full. */
    method Append(f: LedgerFault)
      requires Valid()
      modifies this, buf
      ensures Valid() && (buf == old(buf) || fresh(buf))
      ensures Contents() == old(Contents()) + [f]
    {
      if len == buf.Length {
        ghost var was := Contents();
        var grown := new LedgerFault[2 * len + 1](_ => f);
        for i := 0 to len
          invariant len == old(len) && buf == old(buf) && buf[..] == old(buf[..])
          invariant forall k | 0 <= k < i :: grown[k] == was[k]
        {
          grown[i] := buf[i];
        }
        assert grown[..len] == was;
        buf := grown;
      }
      buf[len] := f;
      len := len + 1;
    }

    /** Keeps the faults from the cutoff on, writing over the front of the same array. */
    method KeepSince(cutoff: int)
      requires Valid()
      modifies this`len, buf
      ensures Valid() && Contents() == KeepFrom(old(Contents()), cutoff)
    {
      ghost var was := Contents();
      var kept := 0;
      for i := 0 to len
        invariant kept <= i && len == |was| && Valid()
        invariant buf[..kept] == KeepFrom(was[..i], cutoff)
        invariant buf[i..len] == was[i..]
      {
        assert buf[i] == buf[i..len][0] == was[i];
        assert was[..i + 1][..i] == was[..i];
        if buf[i].atMS >= cutoff {
          ghost var front := buf[..kept];
          buf[kept] := buf[i];
          assert buf[..kept + 1] == front + [was[i]];
          kept := kept + 1;
        }
        assert buf[i + 1..len] == was[i + 1..];
      }
      assert was[..|was|] == was;
      len := kept;
    }

    /** recordLedgerFault */
    method Record(cfg: Settings, faultType: string, atMS: int)
      requires Valid()
      modifies this, buf
      ensures Valid() && (buf == old(buf) || fresh(buf))
      ensures Contents() == RecordLedgerFault(cfg, old(Contents()), faultType, atMS)
    {
      Append(LedgerFault(faultType, atMS));
      KeepSince(atMS - cfg.maxIntervalMS);
    }

    /** ledgerCovers */
    method Covers(faultType: string, startMS: int, endMS: int) returns (b: bool)
      requires Valid()
      ensures b == LedgerCovers(Contents(), faultType, startMS, endMS)
    {
      for i := 0 to len
        invariant forall k | 0 <= k < i :: !(buf[k].faultType == faultType
                                             && startMS - SLACK_MS <= buf[k].atMS <= endMS + SLACK_MS)
      {
        if buf[i].faultType == faultType && startMS - SLACK_MS <= buf[i].atMS && buf[i].atMS <= endMS + SLACK_MS {
          assert Contents()[i] == buf[i];
          return true;
        }
      }
      return false;
    }
  }
}
