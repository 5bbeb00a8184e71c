/** The hash chain over evidence records. */
module Chain {
  import opened Integers
  import opened Bytes
  import opened Evidence
  import opened EvidenceCodec
  import Sha256

  function DigestRecord(r: EvidenceRecord): Digest {
    Sha256.Hash(EncodeRecord(r))
  }

  /** The digest that the record at position `i` must carry: that of its predecessor, or zero. */
  function LinkAt(rs: seq<EvidenceRecord>, i: nat): Digest
    requires i <= |rs|
  {
    if i == 0 then ZERO_DIGEST else DigestRecord(rs[i - 1])
  }

  predicate Linked(rs: seq<EvidenceRecord>) {
    forall i :: 0 <= i < |rs| ==> rs[i].ordinal == i && rs[i].previous == LinkAt(rs, i)
  }

  function HeadOf(rs: seq<EvidenceRecord>): Digest {
    LinkAt(rs, |rs|)
  }

  predicate VerifyChain(rs: seq<EvidenceRecord>, head: Digest) {
    Linked(rs) && HeadOf(rs) == head
  }

  method DigestCommandEvidence(r: EvidenceRecord) returns (d: Digest)
    ensures d == DigestRecord(r)
  {
    hide EncodeRecord, Sha256.Hash;
    var encoded := EncodeCommandEvidence(r);
    d := Sha256.Compute(encoded);
  }

  method VerifyCommandEvidenceChain(records: seq<EvidenceRecord>, expectedHead: Digest) returns (ok: bool)
    ensures ok == VerifyChain(records, expectedHead)
  {
    hide DigestRecord;
    var previous: Digest := ZERO_DIGEST;
    for index := 0 to |records|
      invariant previous == LinkAt(records, index)
      invariant forall i :: 0 <= i < index ==> records[i].ordinal == i && records[i].previous == LinkAt(records, i)
    {
      if index >= TWO_64 {
        return false;
      }
      if records[index].ordinal != index {
        return false;
      }
      if records[index].previous != previous {
        return false;
      }
      previous := DigestCommandEvidence(records[index]);
    }
    ok := previous == expectedHead;
  }

  // ---------------------------------------------------------------- tamper evidence

  /** The outcome of comparing two record lists: they are the same, or they hand over a break of
      the hash function that anyone can check. */
  datatype Comparison = Identical | Collision(a: ByteString, b: ByteString) | ZeroDigest(a: ByteString)

  /** Two different 160-byte encodings with one digest, or an encoding whose digest is all zero. */
  predicate BreaksHash(k: Comparison) {
    match k
    case Identical => false
    case Collision(a, b) => |a| == |b| == RECORD_SIZE && a != b && Sha256.Hash(a) == Sha256.Hash(b)
    case ZeroDigest(a) => |a| == RECORD_SIZE && Sha256.Hash(a) == ZERO_DIGEST
  }

  /** Compares two record lists from their ends and returns the first discrepancy. */
  function Compare(rs: seq<EvidenceRecord>, ss: seq<EvidenceRecord>): Comparison
    decreases |rs|
  {
    if rs == [] && ss == [] then Identical
    else if rs == [] then ZeroDigest(EncodeRecord(ss[|ss| - 1]))
    else if ss == [] then ZeroDigest(EncodeRecord(rs[|rs| - 1]))
    else
      var r, s := rs[|rs| - 1], ss[|ss| - 1];
      if r != s then Collision(EncodeRecord(r), EncodeRecord(s))
      else Compare(rs[..|rs| - 1], ss[..|ss| - 1])
  }

  /** Extending a list leaves its links alone. */
  lemma LinksOfPrefix(rs: seq<EvidenceRecord>, longer: seq<EvidenceRecord>)
    requires rs <= longer
    ensures forall i :: 0 <= i <= |rs| ==> LinkAt(longer, i) == LinkAt(rs, i)
  {
    hide DigestRecord;
  }

  lemma LinkLast(rs: seq<EvidenceRecord>, r: EvidenceRecord)
    requires Linked(rs) && r.ordinal == |rs| && r.previous == HeadOf(rs)
    ensures Linked(rs + [r]) && HeadOf(rs + [r]) == DigestRecord(r)
  {
    hide DigestRecord, LinkAt;
    var longer := rs + [r];
    LinksOfPrefix(rs, longer);
    forall i | 0 <= i < |longer|
      ensures longer[i].ordinal == i && longer[i].previous == LinkAt(longer, i)
    {
      assert LinkAt(longer, i) == LinkAt(rs, i);
    }
    LastLink(longer);
  }

  lemma LastLink(rs: seq<EvidenceRecord>)
    requires rs != []
    ensures HeadOf(rs) == DigestRecord(rs[|rs| - 1])
  {
    hide DigestRecord;
  }

  lemma VerifiedPrefix(rs: seq<EvidenceRecord>, head: Digest)
    requires VerifyChain(rs, head) && rs != []
    ensures VerifyChain(rs[..|rs| - 1], rs[|rs| - 1].previous)
    ensures DigestRecord(rs[|rs| - 1]) == head
  {
    hide DigestRecord;
    LinksOfPrefix(rs[..|rs| - 1], rs);
  }

  lemma EmptyChain(head: Digest)
    requires VerifyChain([], head)
    ensures head == ZERO_DIGEST
  {
  }

  /** Two record lists under one head are equal, or they hand over a break of SHA-256. The
      all-zero digest can only come up when one of the lists is empty: otherwise the ordinals
      already tell lists of different length apart. */
  lemma {:induction false} TamperingBreaksTheHash(rs: seq<EvidenceRecord>, ss: seq<EvidenceRecord>, head: Digest)
    requires VerifyChain(rs, head) && VerifyChain(ss, head)
    ensures rs == ss <==> Compare(rs, ss) == Identical
    ensures rs != ss ==> BreaksHash(Compare(rs, ss))
    ensures rs != ss && rs != [] && ss != [] ==> Compare(rs, ss).Collision?
    decreases |rs|
  {
    hide EncodeRecord, Sha256.Hash, VerifyChain;
    if rs == [] {
      EmptyChain(head);
      if ss != [] { VerifiedPrefix(ss, head); }
    } else if ss == [] {
      EmptyChain(head);
      VerifiedPrefix(rs, head);
    } else {
      VerifiedPrefix(rs, head);
      VerifiedPrefix(ss, head);
      var r, s := rs[|rs| - 1], ss[|ss| - 1];
      if r != s {
        if EncodeRecord(r) == EncodeRecord(s) {
          EncodingIsInjective(r, s);
        }
      } else {
        SameLength(rs, ss, head);
        var rs', ss' := rs[..|rs| - 1], ss[..|ss| - 1];
        TamperingBreaksTheHash(rs', ss', r.previous);
        assert rs == rs' + [r] && ss == ss' + [s];
      }
    }
  }

  lemma SameLength(rs: seq<EvidenceRecord>, ss: seq<EvidenceRecord>, head: Digest)
    requires VerifyChain(rs, head) && VerifyChain(ss, head)
    requires rs != [] && ss != [] && rs[|rs| - 1] == ss[|ss| - 1]
    ensures |rs| == |ss|
  {
    hide DigestRecord;
    assert rs[|rs| - 1].ordinal == |rs| - 1 && ss[|ss| - 1].ordinal == |ss| - 1;
  }

  // ---------------------------------------------------------------- the log

  datatype LogState = LogState(records: seq<EvidenceRecord>, head: Digest)

  const EMPTY_LOG: LogState := LogState([], ZERO_DIGEST)

  function Appended(log: LogState, entry: EvidenceEntry): LogState
    requires |log.records| < TWO_64
  {
    var r := EvidenceRecord(|log.records|, log.head, entry);
    LogState(log.records + [r], DigestRecord(r))
  }

  /** Appending keeps the chain verifying. */
  lemma AppendKeepsChain(log: LogState, entry: EvidenceEntry)
    requires |log.records| < TWO_64
    requires VerifyChain(log.records, log.head)
    ensures VerifyChain(Appended(log, entry).records, Appended(log, entry).head)
  {
    hide DigestRecord, Linked, HeadOf;
    LinkLast(log.records, EvidenceRecord(|log.records|, log.head, entry));
  }

  class CommandEvidenceLog {
    var records: seq<EvidenceRecord>
    var head: Digest

    function View(): LogState
      reads this
    {
      LogState(records, head)
    }

    constructor ()
      ensures View() == EMPTY_LOG
    {
      records := [];
      head := ZERO_DIGEST;
    }

    /** True where `prepare_append` does not throw: the next ordinal fits 64 bits. */
    predicate CanAppend()
      reads this
    {
      |records| < TWO_64
    }

    method Append(entry: EvidenceEntry)
      requires CanAppend()
      modifies this
      ensures View() == Appended(old(View()), entry)
    {
      var r := EvidenceRecord(|records|, head, entry);
      var nextHead := DigestCommandEvidence(r);
      records := records + [r];
      head := nextHead;
    }
  }
}
