/** `listRightIndex` and `parse_champsim_output`: the label-anchored reader
    of one ChampSim run's report.  The number conversion `float(...)` is a
    parameter, `float: string -> Option<N>`, where `None` stands for the
    ValueError Python raises on a token that is not a number. */
module ChampsimParser {
  import opened Outcomes
  import opened PyBuiltins

  const MpkiLabel := "MPKI:"
  const BranchConditionalLabel := "BRANCH_CONDITIONAL:"
  const IpcLabel := "IPC:"
  const L2cLabel := "cpu0_L2C"
  const TotalLabel := "TOTAL"

  /** The labels in the order the parser looks them up. */
  const Labels := [MpkiLabel, BranchConditionalLabel, IpcLabel, L2cLabel]

  /** IPC, TOTAL_MPKI, BRANCH_CONDITIONAL_MPKI, L2C_access, L2C_hit */
  datatype Record<N> = Record(ipc: N, totalMpki: N, branchConditionalMpki: N,
                              l2cAccess: N, l2cHit: N)
  {
    /** The record as the Python 5-tuple. */
    function Fields(): (fs: seq<N>)
      ensures |fs| == 5
    {
      [ipc, totalMpki, branchConditionalMpki, l2cAccess, l2cHit]
    }
  }

  /** `len(a) - a[-1::-1].index(v) - 1`: the last position of `v`, or
      ValueError when `v` is absent. */
  function ListRightIndex(a: seq<string>, v: string): (r: Result<nat>)
    ensures r.Ok? <==> v in a
    ensures r.Ok? ==> IsLast(a, v, r.value)
    ensures r.Err? ==> r.error == ValueNotInList(v)
  {
    var rev := Reversed(a);
    assert forall j :: 0 <= j < |a| ==> rev[|a| - 1 - j] == a[j];
    var k :- ListIndex(rev, v);
    Ok(|a| - k - 1)
  }

  /** `float(tok)` */
  function Float<N>(float: string -> Option<N>, tok: string): (r: Result<N>)
    ensures r.Ok? <==> float(tok).Some?
    ensures r.Ok? ==> r.value == float(tok).value
    ensures r.Err? ==> r.error == NotAFloat(tok)
  {
    match float(tok)
    case Some(x) => Ok(x)
    case None => Err(NotAFloat(tok))
  }

  /** `float(toks[i])`, raising IndexError first when `i` is past the end. */
  function FieldAt<N>(float: string -> Option<N>, toks: seq<string>, i: nat): (r: Result<N>)
    ensures r.Ok? <==> NumberAt(float, toks, i)
    ensures r.Ok? ==> r.value == float(toks[i]).value
    ensures r.Err? ==> r.error == FieldError(toks, i)
  {
    var tok :- PyIndex(toks, i);
    Float(float, tok)
  }

  /** The exception `float(toks[i])` raises when it fails: IndexError past
      the end, ValueError naming the token otherwise. */
  function FieldError(toks: seq<string>, i: nat): Error {
    if i < |toks| then NotAFloat(toks[i]) else IndexOutOfRange
  }

  /** The token `i` exists and converts to a number. */
  predicate NumberAt<N>(float: string -> Option<N>, toks: seq<string>, i: nat) {
    i < |toks| && float(toks[i]).Some?
  }

  predicate AllLabelsIn(toks: seq<string>) {
    MpkiLabel in toks && BranchConditionalLabel in toks && IpcLabel in toks && L2cLabel in toks
  }

  /** The first label, in lookup order, that `toks` lacks. */
  function MissingLabel(toks: seq<string>): string {
    if MpkiLabel !in toks then MpkiLabel
    else if BranchConditionalLabel !in toks then BranchConditionalLabel
    else if IpcLabel !in toks then IpcLabel
    else L2cLabel
  }

  /** Where the four labels were found. */
  datatype Anchors = Anchors(mpki: nat, bc: nat, ipc: nat, l2c: nat)

  /** Lines 12-16: the first `MPKI:`, the first `BRANCH_CONDITIONAL:`, the
      last `IPC:` and the first `cpu0_L2C`, looked up in that order. */
  function Locate(toks: seq<string>): (r: Result<Anchors>)
    ensures r.Ok? <==> AllLabelsIn(toks)
    ensures r.Ok? ==> IsFirst(toks, MpkiLabel, r.value.mpki) && IsFirst(toks, BranchConditionalLabel, r.value.bc)
                      && IsLast(toks, IpcLabel, r.value.ipc) && IsFirst(toks, L2cLabel, r.value.l2c)
    ensures r.Err? ==> r.error == ValueNotInList(MissingLabel(toks))
  {
    var mpki :- ListIndex(toks, MpkiLabel);
    var bc :- ListIndex(toks, BranchConditionalLabel);
    var ipc :- ListRightIndex(toks, IpcLabel);
    var l2c :- ListIndex(toks, L2cLabel);
    Ok(Anchors(mpki, bc, ipc, l2c))
  }

  /** Line 17: `assert text[l2c + 1] == 'TOTAL'`, where the index itself can
      raise IndexError first. */
  function CheckTotal(toks: seq<string>, l2c: nat): (r: Result<()>)
    ensures r.Ok? <==> l2c + 1 < |toks| && toks[l2c + 1] == TotalLabel
    ensures r.Err? ==> r.error == if l2c + 1 < |toks| then AssertionFailed else IndexOutOfRange
  {
    var next :- PyIndex(toks, l2c + 1);
    if next != TotalLabel then Err(AssertionFailed) else Ok(())
  }

  /** Line 20: the five conversions, left to right. */
  function ReadFields<N>(float: string -> Option<N>, toks: seq<string>, at: Anchors): (r: Result<Record<N>>)
    ensures r.Ok? <==> NumberAt(float, toks, at.ipc + 1) && NumberAt(float, toks, at.mpki + 1)
                       && NumberAt(float, toks, at.bc + 1) && NumberAt(float, toks, at.l2c + 3)
                       && NumberAt(float, toks, at.l2c + 5)
    ensures r.Ok? ==> r.value == Record(float(toks[at.ipc + 1]).value, float(toks[at.mpki + 1]).value,
                                        float(toks[at.bc + 1]).value, float(toks[at.l2c + 3]).value,
                                        float(toks[at.l2c + 5]).value)
    // the first conversion that fails, left to right, decides the exception
    ensures !NumberAt(float, toks, at.ipc + 1) ==> r == Err(FieldError(toks, at.ipc + 1))
    ensures NumberAt(float, toks, at.ipc + 1) && !NumberAt(float, toks, at.mpki + 1) ==>
              r == Err(FieldError(toks, at.mpki + 1))
    ensures NumberAt(float, toks, at.ipc + 1) && NumberAt(float, toks, at.mpki + 1)
            && !NumberAt(float, toks, at.bc + 1) ==>
              r == Err(FieldError(toks, at.bc + 1))
    ensures NumberAt(float, toks, at.ipc + 1) && NumberAt(float, toks, at.mpki + 1)
            && NumberAt(float, toks, at.bc + 1) && !NumberAt(float, toks, at.l2c + 3) ==>
              r == Err(FieldError(toks, at.l2c + 3))
    ensures NumberAt(float, toks, at.ipc + 1) && NumberAt(float, toks, at.mpki + 1)
            && NumberAt(float, toks, at.bc + 1) && NumberAt(float, toks, at.l2c + 3)
            && !NumberAt(float, toks, at.l2c + 5) ==>
              r == Err(FieldError(toks, at.l2c + 5))
  {
    var ipcValue :- FieldAt(float, toks, at.ipc + 1);
    var mpkiValue :- FieldAt(float, toks, at.mpki + 1);
    var bcValue :- FieldAt(float, toks, at.bc + 1);
    var accessValue :- FieldAt(float, toks, at.l2c + 3);
    var hitValue :- FieldAt(float, toks, at.l2c + 5);
    Ok(Record(ipcValue, mpkiValue, bcValue, accessValue, hitValue))
  }

  /** `parse_champsim_output` after the split into tokens, with the
      exceptions in the order Python raises them. */
  function ParseTokens<N>(float: string -> Option<N>, toks: seq<string>): (r: Result<Record<N>>)
    ensures r.Ok? ==> AllLabelsIn(toks)
    ensures !AllLabelsIn(toks) ==> r == Err(ValueNotInList(MissingLabel(toks)))
  {
    var at :- Locate(toks);
    ParseFrom(float, toks, at)
  }

  /** Lines 17-20, once the labels are found. */
  function ParseFrom<N>(float: string -> Option<N>, toks: seq<string>, at: Anchors): (r: Result<Record<N>>)
    ensures r.Ok? <==> CheckTotal(toks, at.l2c).Ok? && ReadFields(float, toks, at).Ok?
    ensures r.Ok? ==> r == ReadFields(float, toks, at)
    ensures CheckTotal(toks, at.l2c).Err? ==> r == Err(CheckTotal(toks, at.l2c).error)
    ensures CheckTotal(toks, at.l2c).Ok? ==> r == ReadFields(float, toks, at)
  {
    var _ :- CheckTotal(toks, at.l2c);
    ReadFields(float, toks, at)
  }

  /** Located labels hand the tokens to the later stages. */
  lemma ParseTokensFrom<N>(float: string -> Option<N>, toks: seq<string>, at: Anchors)
    requires Locate(toks) == Ok(at)
    ensures ParseTokens(float, toks) == ParseFrom(float, toks, at)
  {
  }

  /** A successful parse passed every stage. */
  lemma ParseStages<N>(float: string -> Option<N>, toks: seq<string>)
    requires ParseTokens(float, toks).Ok?
    ensures Locate(toks).Ok? && CheckTotal(toks, Locate(toks).value.l2c).Ok?
    ensures ParseTokens(float, toks) == ReadFields(float, toks, Locate(toks).value)
  {
    var at := Locate(toks);
    assert at.Ok?;
    ParseTokensFrom(float, toks, at.value);
  }

  /** `parse_champsim_output(text)` on text already decoded from UTF-8. */
  function ParseChampsimOutput<N>(float: string -> Option<N>, text: string): (r: Result<Record<N>>)
    ensures r.Ok? ==> AllLabelsIn(Split(text))
    ensures !AllLabelsIn(Split(text)) ==> r == Err(ValueNotInList(MissingLabel(Split(text))))
  {
    ParseTokens(float, Split(text))
  }

  /** Once the labels are located at `at`, parsing succeeds exactly when the
      token after `cpu0_L2C` is `TOTAL` and the five value tokens exist and
      are numbers, and the record then holds those five numbers. */
  lemma ParseWith<N>(float: string -> Option<N>, toks: seq<string>, at: Anchors)
    requires Locate(toks) == Ok(at)
    ensures ParseTokens(float, toks).Ok? <==>
      at.l2c + 1 < |toks| && toks[at.l2c + 1] == TotalLabel
      && NumberAt(float, toks, at.ipc + 1) && NumberAt(float, toks, at.mpki + 1)
      && NumberAt(float, toks, at.bc + 1) && NumberAt(float, toks, at.l2c + 3)
      && NumberAt(float, toks, at.l2c + 5)
    ensures ParseTokens(float, toks).Ok? ==>
      ParseTokens(float, toks).value == Record(float(toks[at.ipc + 1]).value, float(toks[at.mpki + 1]).value,
                                               float(toks[at.bc + 1]).value, float(toks[at.l2c + 3]).value,
                                               float(toks[at.l2c + 5]).value)
    // the exceptions: the TOTAL check's first, then the conversions'
    ensures !(at.l2c + 1 < |toks| && toks[at.l2c + 1] == TotalLabel) ==>
      ParseTokens(float, toks) == Err(if at.l2c + 1 < |toks| then AssertionFailed else IndexOutOfRange)
    ensures at.l2c + 1 < |toks| && toks[at.l2c + 1] == TotalLabel ==>
      ParseTokens(float, toks) == ReadFields(float, toks, at)
  {
    ParseTokensFrom(float, toks, at);
  }

  /** With the four labels found at `mpki`, `bc`, `l2c` (first occurrences)
      and `ipc` (last occurrence), parsing succeeds exactly when the token
      after `cpu0_L2C` is `TOTAL` and the five value tokens exist and are
      numbers. */
  lemma ParseAtOk<N>(float: string -> Option<N>, toks: seq<string>, mpki: nat, bc: nat, ipc: nat, l2c: nat)
    requires IsFirst(toks, MpkiLabel, mpki)
    requires IsFirst(toks, BranchConditionalLabel, bc)
    requires IsLast(toks, IpcLabel, ipc)
    requires IsFirst(toks, L2cLabel, l2c)
    ensures ParseTokens(float, toks).Ok? <==>
      l2c + 1 < |toks| && toks[l2c + 1] == TotalLabel
      && NumberAt(float, toks, ipc + 1) && NumberAt(float, toks, mpki + 1)
      && NumberAt(float, toks, bc + 1) && NumberAt(float, toks, l2c + 3)
      && NumberAt(float, toks, l2c + 5)
  {
    LocateAt(toks, mpki, bc, ipc, l2c);
    ParseWith(float, toks, Anchors(mpki, bc, ipc, l2c));
  }

  /** ... and the record then holds those five numbers, in the order IPC,
      total MPKI, branch-conditional MPKI, L2 accesses, L2 hits. */
  lemma ParseAt<N>(float: string -> Option<N>, toks: seq<string>, mpki: nat, bc: nat, ipc: nat, l2c: nat)
    requires IsFirst(toks, MpkiLabel, mpki)
    requires IsFirst(toks, BranchConditionalLabel, bc)
    requires IsLast(toks, IpcLabel, ipc)
    requires IsFirst(toks, L2cLabel, l2c)
    requires ParseTokens(float, toks).Ok?
    ensures NumberAt(float, toks, ipc + 1) && NumberAt(float, toks, mpki + 1) && NumberAt(float, toks, bc + 1)
            && NumberAt(float, toks, l2c + 3) && NumberAt(float, toks, l2c + 5)
    ensures ParseTokens(float, toks).value == Record(float(toks[ipc + 1]).value, float(toks[mpki + 1]).value,
                                                     float(toks[bc + 1]).value, float(toks[l2c + 3]).value,
                                                     float(toks[l2c + 5]).value)
  {
    LocateAt(toks, mpki, bc, ipc, l2c);
    ParseWith(float, toks, Anchors(mpki, bc, ipc, l2c));
  }

  /** The anchors are the first and last occurrences of the labels. */
  lemma LocateAt(toks: seq<string>, mpki: nat, bc: nat, ipc: nat, l2c: nat)
    requires IsFirst(toks, MpkiLabel, mpki)
    requires IsFirst(toks, BranchConditionalLabel, bc)
    requires IsLast(toks, IpcLabel, ipc)
    requires IsFirst(toks, L2cLabel, l2c)
    ensures Locate(toks) == Ok(Anchors(mpki, bc, ipc, l2c))
  {
    assert AllLabelsIn(toks);
    var at := Locate(toks).value;
    FirstIsUnique(toks, MpkiLabel, mpki, at.mpki);
    FirstIsUnique(toks, BranchConditionalLabel, bc, at.bc);
    LastIsUnique(toks, IpcLabel, ipc, at.ipc);
    FirstIsUnique(toks, L2cLabel, l2c, at.l2c);
  }

  /** A missing label is a failure, never a default: the error names the
      first label, in lookup order, that does not occur. */
  lemma ParseMissingLabel<N>(float: string -> Option<N>, toks: seq<string>, k: nat)
    requires k < |Labels| && Labels[k] !in toks
    requires forall j :: 0 <= j < k ==> Labels[j] in toks
    ensures ParseTokens(float, toks) == Err(ValueNotInList(Labels[k]))
  {
    assert Labels[0] == MpkiLabel && Labels[1] == BranchConditionalLabel
           && Labels[2] == IpcLabel && Labels[3] == L2cLabel;
    assert MissingLabel(toks) == Labels[k];
  }

  /** The token after the first `cpu0_L2C` must be `TOTAL`: a missing one
      raises IndexError, a different one fails the assertion. */
  lemma ParseChecksTotal<N>(float: string -> Option<N>, toks: seq<string>, l2c: nat)
    requires MpkiLabel in toks && BranchConditionalLabel in toks && IpcLabel in toks
    requires IsFirst(toks, L2cLabel, l2c)
    ensures l2c + 1 == |toks| ==> ParseTokens(float, toks) == Err(IndexOutOfRange)
    ensures l2c + 1 < |toks| && toks[l2c + 1] != TotalLabel ==>
              ParseTokens(float, toks) == Err(AssertionFailed)
  {
    var at := Locate(toks).value;
    FirstIsUnique(toks, L2cLabel, l2c, at.l2c);
    ParseTokensFrom(float, toks, at);
  }

  /** When `IPC:` occurs at `p1 < p2` and not after `p2`, the IPC value is
      the number after `p2`, the later report. */
  lemma IpcTakesLastReport<N>(float: string -> Option<N>, toks: seq<string>, p1: nat, p2: nat)
    requires p1 < p2 < |toks| && toks[p1] == IpcLabel && toks[p2] == IpcLabel
    requires forall j :: p2 < j < |toks| ==> toks[j] != IpcLabel
    requires ParseTokens(float, toks).Ok?
    ensures NumberAt(float, toks, p2 + 1)
    ensures ParseTokens(float, toks).value.ipc == float(toks[p2 + 1]).value
  {
    ParseStages(float, toks);
    var at := Locate(toks).value;
    LastIsUnique(toks, IpcLabel, p2, at.ipc);
    var fields := ReadFields(float, toks, at);
    assert fields.Ok? && fields.value.ipc == float(toks[at.ipc + 1]).value;
  }

  /** Only the tokens matter, not the whitespace around them: a report
      whose words `ws` are separated by any non-empty runs of whitespace
      (newlines, tabs, several spaces), with any whitespace before and after,
      parses like `ws` itself. */
  lemma ParseIgnoresLayout<N>(float: string -> Option<N>, ws: seq<string>, gaps: seq<string>)
    requires |gaps| == |ws| + 1
    requires forall k :: 0 <= k < |ws| ==> IsWord(ws[k])
    requires forall k :: 0 <= k < |gaps| ==> IsBlank(gaps[k])
    requires forall k :: 0 < k < |ws| ==> gaps[k] != []
    ensures ParseChampsimOutput(float, Layout(ws, gaps)) == ParseTokens(float, ws)
  {
    SplitLayout(ws, gaps);
  }
}
