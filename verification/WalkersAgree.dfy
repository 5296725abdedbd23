/** The three readers of a phrase log on one image. */
module WalkersAgree {
  import opened Bytes
  import opened Outcomes
  import opened Chunk
  import opened PhraseLog
  import opened LogWalkers
  import opened Pronunciations
  import Sorting
  import U = UnigramFields

  /** An entry as the library writes it: whole phrases, and totals of four bytes under token zero. */
  predicate Standard(e: Entry) {
    EntryOk(e) && Encodable(RecordOf(e)) && (e.NewTotals? ==> e.token == 0 && |e.was| == 4)
  }

  ghost predicate AllStandard(es: seq<Entry>) {
    forall i :: 0 <= i < |es| ==> Standard(es[i])
  }

  /** The framed log of some entries. */
  function Image(es: seq<Entry>): (d: Data)
    requires forall i :: 0 <= i < |es| ==> EntryOk(es[i])
  {
    var payload := EncodeAll(RecordsOf(es));
    Header(|payload|, Checksum(payload)) + payload
  }

  lemma {:induction false} RecordsInOrder(es: seq<Entry>)
    requires AllStandard(es)
    ensures |RecordsOf(es)| == |es|
    ensures forall i :: 0 <= i < |es| ==> RecordsOf(es)[i] == RecordOf(es[i])
  {
    if es != [] {
      RecordsInOrder(es[1..]);
    }
  }

  lemma StandardIsReadable(e: Entry, library: nat)
    requires Standard(e)
    ensures U.Readable(RecordOf(e), Some(library)) && Walkable(RecordOf(e))
  {
    hide SpellReadings;
  }

  /** On every framed log of entries the three readers agree: the unigram reader yields the fields of the records,
      sorted and joined, twelve bytes for each record, the counter counts every record under its kind and finds the
      first totals, and the pronunciation reader yields one row for each stored reading. */
  lemma ReadersAgree(es: seq<Entry>, library: nat)
    requires AllStandard(es) && |EncodeAll(RecordsOf(es))| < Pow256(4)
    ensures U.State(Image(es), Some(library)).Ok?
    ensures |U.State(Image(es), Some(library)).value| == 12 * |es|
    ensures U.AllReadable(RecordsOf(es), Some(library))
    ensures U.State(Image(es), Some(library)).value ==
      U.Concat(Sorting.Sort(U.AtMost, U.FieldsOf(RecordsOf(es), Some(library))))
    ensures var rs := RecordsOf(es);
      WalkFrom(Payload(Image(es)), START)
      == Walk(FirstTotals(rs), Counts(CountOf(rs, 1), CountOf(rs, 2), CountOf(rs, 3), CountOf(rs, 4)))
    ensures Rows(Payload(Image(es))) == Ok(AllRowsOf(es))
  {
    var rs := RecordsOf(es);
    var payload := EncodeAll(rs);
    RecordsInOrder(es);
    forall i | 0 <= i < |rs|
      ensures Encodable(rs[i]) && U.Readable(rs[i], Some(library)) && Walkable(rs[i])
    {
      StandardIsReadable(es[i], library);
    }
    hide U.Readable;
    hide Walkable;
    hide EntryOk;
    ChunkRoundTrip(payload);
    assert Image(es)[FRAME..] == payload;
    DecodeAllInverts(rs);
    U.AcceptedIff(payload, Some(library));
    U.StateReadsBack(Image(es), Some(library));
    LogWalkIsExact(Header(|payload|, Checksum(payload)), rs);
    PronunciationsAreExact(es);
  }
}
