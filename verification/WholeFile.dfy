/**
 * The two parts of a written file that have an encoding of their own inside an item: the catch-handler
 * tables of code items and the hidden-API section.
 */
module WholeFile {
  import opened Bytes
  import opened DexIr
  import opened DexWriting
  import opened DexReading
  import opened DiskItems
  import CatchHandlers
  import HiddenApi

  function HandlerOffsets(tries: seq<TryItem>): (offsets: seq<u16>)
    ensures |offsets| == |tries| && forall t :: 0 <= t < |tries| ==> offsets[t] == tries[t].handlerOff
  {
    seq<u16>(|tries|, t requires 0 <= t < |tries| => tries[t].handlerOff)
  }

  /**
   * Reading the handlers of code item `i`, which stands at `p` in a well-written file. The try items
   * are those that were written, each with the handler of the entry at its offset, and every entry of
   * the table is listed once.
   */
  method ReadHandlers(file: seq<byte>, p: nat, ghost ir: Ir, ghost offs: map<Ref, u32>, ghost place: map<Ref, nat>,
                      ghost i: nat, ghost es: seq<CatchHandlers.Entry>, ghost was: seq<nat>)
    returns (tries: seq<TryItem>, stayed: bool, list: seq<CatchHandlers.Handler>, refs: seq<nat>, ghost order: seq<nat>)
    requires WellWritten(ir, file, offs, place) && Closed(ir) && i < |ir.codeItems| && ItemFits(ir, Ref(CodeItems, i))
    requires Ref(CodeItems, i) in place && p == place[Ref(CodeItems, i)] && ir.codeItems[i].tries != []
    requires CatchHandlers.Lists(es, ir.codeItems[i].handlers, was) && |was| == |es| && CatchHandlers.InReach(es)
    requires CatchHandlers.ValidTries(es, HandlerOffsets(ir.codeItems[i].tries))
    ensures tries == ir.codeItems[i].tries && CatchHandlers.Lists(es, list, order) && |refs| == |tries|
    ensures forall t :: 0 <= t < |tries| ==> CatchHandlers.RefersTo(es, list, order, refs[t], tries[t].handlerOff)
    ensures stayed && |list| == |es| && forall k :: 0 <= k < |es| ==> k in order
  {
    hide WellWritten, Closed, ItemFits, CatchHandlers.Table, CatchHandlers.ValidTable, CatchHandlers.ValidTries,
      CatchHandlers.HandlerOf, CatchHandlers.Start, CatchHandlers.Unmixed, CatchHandlers.InReach, CatchHandlers.Overlay,
      CatchHandlers.Applied, CatchHandlers.Extent, ReadTries, ReadU16, ReadU32,
      ReadHalves, Pointer, Moved, At;
    FileReadsBack(ir, file, offs, place, Ref(CodeItems, i));
    ghost var c := ir.codeItems[i];
    CatchHandlers.ListWritten([], 0, es, c.handlers, was);
    CatchHandlers.ReachUnmixed(es);
    var q := TriesStart(p, ReadU32(file, p + 12));
    tries := ReadTries(file, q, ReadU16(file, p + 6));
    var base := q + 8 * |tries|;
    assert HandlerOffsets(tries) == HandlerOffsets(c.tries);
    list, refs, order := CatchHandlers.CollectTries(file, base, HandlerOffsets(tries), es);
    ghost var found, foundOrder := list, order;
    stayed, list, order := CatchHandlers.AddMissing(file, base, list, es, order);
    forall t | 0 <= t < |tries| ensures CatchHandlers.RefersTo(es, list, order, refs[t], tries[t].handlerOff) {
      assert CatchHandlers.RefersTo(es, found, foundOrder, refs[t], tries[t].handlerOff);
    }
    CatchHandlers.ListsDistinct(es, list, order);
  }

  /** Reading the hidden-API section from the place where the map list says it is: every member has the flags it had. */
  method ReadHiddenapi(file: seq<byte>, p: nat, shapes: seq<HiddenApi.Class>, ghost ir: Ir, ghost offs: map<Ref, u32>,
                       ghost place: map<Ref, nat>, ghost cs: seq<HiddenApi.Class>)
    returns (flags: seq<Option<map<nat, u32>>>)
    requires WellWritten(ir, file, offs, place) && Closed(ir) && HiddenApi.Fits(cs)
    requires ir.hiddenapi == cs && cs != []
    requires Ref(HiddenapiData, 0) in place && p == place[Ref(HiddenapiData, 0)]
    requires |shapes| == |cs| && forall k :: 0 <= k < |cs| ==> shapes[k] == cs[k].(flags := None)
    ensures |flags| == |cs|
    ensures forall k, m :: 0 <= k < |cs| && m in HiddenApi.Members(cs[k]) ==>
              && (flags[k].Some? ==> m in flags[k].value) && (cs[k].flags.Some? ==> m in cs[k].flags.value)
              && HiddenApi.GetFlags(flags[k], m) == HiddenApi.GetFlags(cs[k].flags, m)
  {
    hide WellWritten, Closed, HiddenApi.Section, HiddenApi.Start, At;
    FileReadsBack(ir, file, offs, place, Ref(HiddenapiData, 0));
    flags := HiddenApi.ReadHiddenapiClassData(file, p, shapes, cs);
    forall k, m | 0 <= k < |cs| && m in HiddenApi.Members(cs[k])
      ensures (flags[k].Some? ==> m in flags[k].value) && (cs[k].flags.Some? ==> m in cs[k].flags.value)
      ensures HiddenApi.GetFlags(flags[k], m) == HiddenApi.GetFlags(cs[k].flags, m)
    {
      HiddenApi.FlagsSurvive(cs[k], m);
    }
  }
}
