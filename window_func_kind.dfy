/** The kind of a window function: the general-purpose ones and the
    aggregates used with `OVER`, read from their protobuf form. */
module WindowFuncKinds {
  import opened Wrappers

  /** An aggregate kind, as `AggKind::from_protobuf` returns it. */
  datatype AggKind = AggKind(code: nat)

  datatype WindowFuncKind =
    | RowNumber
    | Rank
    | DenseRank
    | Lag
    | Lead
    | Aggregate(agg: AggKind)

  /** The decoded general window function type of the protobuf. */
  datatype PbGeneralType = Unspecified | PbRowNumber | PbRank | PbDenseRank | PbLag | PbLead

  /** The protobuf's window function type: a general type or an aggregate
      type, each as its raw enum code. */
  datatype PbType = General(generalCode: int) | AggregateType(aggCode: int)

  /** The protobuf general type a kind comes from; none for an aggregate. */
  function GeneralTypeOf(k: WindowFuncKind): Option<PbGeneralType> {
    match k
    case RowNumber => Some(PbRowNumber)
    case Rank => Some(PbRank)
    case DenseRank => Some(PbDenseRank)
    case Lag => Some(PbLag)
    case Lead => Some(PbLead)
    case Aggregate(_) => None
  }

  /** `WindowFuncKind::from_protobuf`. `generalOf` and `aggTypeOf` are the
      protobuf enums' `try_from` on a raw code (none for an unknown code) and
      `aggKindOf` is `AggKind::from_protobuf`. A general type maps to the
      same-named kind, except that Unspecified and unknown codes are errors;
      an aggregate type maps to `Aggregate` of its kind, an unknown code
      and an error of `AggKind::from_protobuf` being errors. */
  function FromProtobuf(t: PbType, generalOf: int -> Option<PbGeneralType>, aggTypeOf: int -> Option<nat>,
                        aggKindOf: nat -> Result<AggKind, string>): (r: Result<WindowFuncKind, string>)
    ensures t.General? ==> (r.Success? <==> generalOf(t.generalCode).Some? && generalOf(t.generalCode).value != Unspecified)
    ensures t.General? && r.Success? ==> GeneralTypeOf(r.value) == generalOf(t.generalCode)
    ensures t.AggregateType? ==>
      (r.Success? <==> aggTypeOf(t.aggCode).Some? && aggKindOf(aggTypeOf(t.aggCode).value).Success?)
    ensures t.AggregateType? && r.Success? ==> r.value == Aggregate(aggKindOf(aggTypeOf(t.aggCode).value).value)
    ensures t.AggregateType? && aggTypeOf(t.aggCode).Some? && aggKindOf(aggTypeOf(t.aggCode).value).Failure? ==>
      r == Failure(aggKindOf(aggTypeOf(t.aggCode).value).error)
  {
    match t
    case General(code) =>
      (match generalOf(code)
      case None => Failure("no such window function type")
      case Some(Unspecified) => Failure("Unspecified window function type")
      case Some(PbRowNumber) => Success(RowNumber)
      case Some(PbRank) => Success(Rank)
      case Some(PbDenseRank) => Success(DenseRank)
      case Some(PbLag) => Success(Lag)
      case Some(PbLead) => Success(Lead))
    case AggregateType(code) =>
      match aggTypeOf(code)
      case None => Failure("no such aggregate function type")
      case Some(aggType) =>
        var k := aggKindOf(aggType);
        if k.Failure? then Failure(k.error) else Success(Aggregate(k.value))
  }

  /** Every general kind is read back from its own protobuf type, so
      distinct general kinds come from distinct types. */
  lemma {:induction false} FromProtobufRoundTrip(k: WindowFuncKind, code: int, generalOf: int -> Option<PbGeneralType>,
                                                 aggTypeOf: int -> Option<nat>, aggKindOf: nat -> Result<AggKind, string>)
    requires !k.Aggregate? && generalOf(code) == GeneralTypeOf(k)
    ensures FromProtobuf(General(code), generalOf, aggTypeOf, aggKindOf) == Success(k)
  {
    match k {
      case RowNumber =>
      case Rank =>
      case DenseRank =>
      case Lag =>
      case Lead =>
    }
  }

  /** `is_rank`: the ranking functions. */
  predicate IsRank(k: WindowFuncKind) {
    k.RowNumber? || k.Rank? || k.DenseRank?
  }

  /** A kind is a ranking function exactly when it is read from the
      RowNumber, Rank or DenseRank general type; no aggregate ranks. */
  lemma IsRankSpec(t: PbType, generalOf: int -> Option<PbGeneralType>, aggTypeOf: int -> Option<nat>,
                   aggKindOf: nat -> Result<AggKind, string>)
    requires FromProtobuf(t, generalOf, aggTypeOf, aggKindOf).Success?
    ensures IsRank(FromProtobuf(t, generalOf, aggTypeOf, aggKindOf).value)
        <==> t.General? && generalOf(t.generalCode) in {Some(PbRowNumber), Some(PbRank), Some(PbDenseRank)}
  {
  }
}
