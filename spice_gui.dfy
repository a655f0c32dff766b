/** The state of the SpiceGenerator window in the two gui.py variants, without its widgets: the
    texts of the input fields, the stimulus list and the list widget beside it, the imported
    netlist and the netlist shown. `strict` tells the variant that indexes parameters with []
    (and has no clear_netlist) from the one that reads them with dict.get. */
module SpiceGui {
  import opened Text
  import opened SpiceNetlist

  /** The list widget item of a stimulus: f"{name} ({type}) -> {node}". */
  function Label(s: Stimulus): string {
    s.name + " (" + s.kind + ") -> " + s.node
  }

  function Labels(stims: seq<Stimulus>): (r: seq<string>)
    ensures |r| == |stims| && forall i :: 0 <= i < |stims| ==> r[i] == Label(stims[i])
  {
    seq(|stims|, i requires 0 <= i < |stims| => Label(stims[i]))
  }

  /** The fields of a form, as a set. */
  function KeySet(keys: seq<string>): (r: set<string>)
    ensures forall k :: k in r <==> k in keys
  {
    set k | k in keys
  }

  /** Fresh line edits for the given fields. */
  function Blank(keys: seq<string>): (m: map<string, string>)
    ensures m.Keys == KeySet(keys) && forall k :: k in m ==> m[k] == ""
  {
    map k | k in keys :: ""
  }

  /** A record as add_stimuli makes them: a name, a node and its type's parameters. */
  predicate WellFormed(s: Stimulus) {
    Conforms(s) && s.name != "" && s.node != ""
  }

  /** A record made from the fields of its type's form holds its type's parameters. */
  lemma EnteredConforms(kind: string, nameText: string, nodeText: string, widgets: map<string, string>)
    requires widgets.Keys == KeySet(Schema(kind))
    requires Strip(nameText) != "" && Strip(nodeText) != ""
    ensures WellFormed(Entered(kind, nameText, nodeText, widgets))
  {
  }

  lemma LabelsAppend(stims: seq<Stimulus>, s: Stimulus)
    ensures Labels(stims + [s]) == Labels(stims) + [Label(s)]
  {
  }

  /** The record add_stimuli makes from the type and the texts of the fields: name, node and
      parameter values stripped. */
  function Entered(kind: string, nameText: string, nodeText: string, widgets: map<string, string>): Stimulus {
    Stimulus(kind, Strip(nameText), Strip(nodeText), map k | k in widgets :: Strip(widgets[k]))
  }

  // ---------------------------------------------------------------------------------------------
  // Removing rows

  /** list.pop(r): the element at r leaves, the others keep their order. */
  function RemoveAt<T>(xs: seq<T>, r: nat): (ys: seq<T>)
    requires r < |xs|
    ensures |ys| == |xs| - 1
    ensures forall i :: 0 <= i < r ==> ys[i] == xs[i]
    ensures forall i :: r <= i < |ys| ==> ys[i] == xs[i + 1]
  {
    xs[..r] + xs[r + 1..]
  }

  /** The loop of remove_selected_stimuli on one list: the selected rows in reverse order, each
      popped from the list as it is by then. A row past the end raises IndexError, which ends
      the loop: the result is the list at that point and whether it was raised. */
  function Pops<T>(xs: seq<T>, rows: seq<nat>): (seq<T>, bool)
    decreases |rows|
  {
    if rows == [] then (xs, false)
    else
      var r := rows[|rows| - 1];
      if r < |xs| then Pops(RemoveAt(xs, r), rows[..|rows| - 1]) else (xs, true)
  }

  /** The elements whose index is not in `drop`, in order. */
  function Without<T>(xs: seq<T>, drop: set<nat>): seq<T> {
    if xs == [] then []
    else Without(xs[..|xs| - 1], drop) + (if |xs| - 1 in drop then [] else [xs[|xs| - 1]])
  }

  predicate Ascending(rows: seq<nat>) {
    forall i, j :: 0 <= i < j < |rows| ==> rows[i] < rows[j]
  }

  /** Dropping indices at or past the end changes nothing. */
  lemma {:induction false} WithoutBeyond<T>(xs: seq<T>, drop: set<nat>, r: nat)
    requires r >= |xs|
    ensures Without(xs, drop + {r}) == Without(xs, drop)
    decreases |xs|
  {
    if xs != [] {
      WithoutBeyond(xs[..|xs| - 1], drop, r);
    }
  }

  /** Popping row r, then dropping rows below it, drops them all. */
  lemma {:induction false} WithoutRemoveAt<T>(xs: seq<T>, drop: set<nat>, r: nat)
    requires r < |xs| && forall d :: d in drop ==> d < r
    ensures Without(RemoveAt(xs, r), drop) == Without(xs, drop + {r})
    decreases |xs|
  {
    var n := |xs|;
    var front := xs[..n - 1];
    if r == n - 1 {
      assert RemoveAt(xs, r) == front;
      WithoutBeyond(front, drop, r);
    } else {
      var ys := RemoveAt(xs, r);
      assert ys[..n - 2] == RemoveAt(front, r);
      assert ys[n - 2] == xs[n - 1];
      WithoutRemoveAt(front, drop, r);
    }
  }

  /** With the default single selection, the selected row is removed and the others keep their
      order. */
  lemma PopOne<T>(xs: seq<T>, r: nat)
    requires r < |xs|
    ensures Pops(xs, [r]) == (RemoveAt(xs, r), false)
  {
    assert [r][..0] == [];
  }

  /** The rows of a selection, as a set. */
  function RowSet(rows: seq<nat>): (r: set<nat>)
    ensures forall d :: d in r <==> d in rows
  {
    set d | d in rows
  }

  lemma RowSetLast(rows: seq<nat>, front: seq<nat>, r: nat)
    requires rows == front + [r] && Ascending(rows)
    ensures RowSet(rows) == RowSet(front) + {r}
    ensures forall d :: d in RowSet(front) ==> d < r
  {
    forall d | d in RowSet(front) ensures d < r {
      var i :| 0 <= i < |front| && front[i] == d;
      assert rows[i] == d && rows[|front|] == r;
    }
  }

  /** Rows selected in ascending order are removed exactly, and the survivors keep their order. */
  lemma {:induction false} PopsAscending<T>(xs: seq<T>, rows: seq<nat>)
    requires Ascending(rows) && forall i :: 0 <= i < |rows| ==> rows[i] < |xs|
    ensures Pops(xs, rows) == (Without(xs, RowSet(rows)), false)
    decreases |rows|
  {
    if rows == [] {
      assert RowSet(rows) == {};
      WithoutNone(xs);
    } else {
      var n := |rows|;
      var r := rows[n - 1];
      var front := rows[..n - 1];
      forall i | 0 <= i < n - 1 ensures front[i] < |xs| - 1 {
        assert rows[i] < rows[n - 1];
      }
      PopsAscending(RemoveAt(xs, r), front);
      assert rows == front + [r];
      RowSetLast(rows, front, r);
      WithoutRemoveAt(xs, RowSet(front), r);
    }
  }

  lemma {:induction false} WithoutNone<T>(xs: seq<T>)
    ensures Without(xs, {}) == xs
  {
    if xs != [] {
      WithoutNone(xs[..|xs| - 1]);
    }
  }

  /** A latent case: the list widget keeps Qt's single-selection mode, so at most one row is
      ever selected. Were several rows selected in another order, the rows removed would not be
      the rows selected: rows 1 then 0 of three remove the first and the last. */
  lemma PopsUnordered(a: int, b: int, c: int)
    ensures Pops([a, b, c], [1, 0]) == ([b], false)
  {
    assert [1, 0][..1] == [1];
    assert RemoveAt([a, b, c], 0) == [b, c];
    assert RemoveAt([b, c], 1) == [b];
  }

  /** The same latent case on two records: row 0 is popped first, and popping row 1 from the
      one record left raises IndexError. */
  lemma PopsUnorderedRaises(a: int, b: int)
    ensures Pops([a, b], [1, 0]) == ([b], true)
  {
    assert [1, 0][..1] == [1];
    assert RemoveAt([a, b], 0) == [b];
  }

  /** Popping the same row from the records and from their labels keeps the two in step. */
  lemma LabelsRemoveAt(stims: seq<Stimulus>, r: nat)
    requires r < |stims|
    ensures Labels(RemoveAt(stims, r)) == RemoveAt(Labels(stims), r)
  {
  }

  // ---------------------------------------------------------------------------------------------
  // The window

  class SpiceGenerator {
    const strict: bool
    var sourceType: string
    var sourceNameText: string
    var nodeText: string
    var paramWidgets: map<string, string>
    var analysisType: string
    var analysisWidgets: map<string, string>
    var importedNetlist: string
    var stimuli: seq<Stimulus>
    var listItems: seq<string>
    var netlistText: string

    /** The list widget shows one label per record, the forms show the fields of the selected
        types, and every record holds a non-empty name and node and its type's parameters. */
    predicate Valid()
      reads this
    {
      && listItems == Labels(stimuli)
      && paramWidgets.Keys == KeySet(Schema(sourceType))
      && analysisWidgets.Keys == KeySet(AnalysisKeys(analysisType))
      && forall i :: 0 <= i < |stimuli| ==> WellFormed(stimuli[i])
    }

    /** __init__: empty lists and texts, and the forms of the first combo box items. */
    constructor(strictVariant: bool)
      ensures Valid() && strict == strictVariant
      ensures sourceType == Pulse && paramWidgets == Blank(Schema(Pulse))
      ensures analysisType == Transient && analysisWidgets == Blank(AnalysisKeys(Transient))
      ensures sourceNameText == "" && nodeText == "" && importedNetlist == "" && netlistText == ""
      ensures stimuli == [] && listItems == []
    {
      strict := strictVariant;
      sourceType := Pulse;
      sourceNameText := "";
      nodeText := "";
      paramWidgets := Blank(Schema(Pulse));
      analysisType := Transient;
      analysisWidgets := Blank(AnalysisKeys(Transient));
      importedNetlist := "";
      stimuli := [];
      listItems := [];
      netlistText := "";
    }

    /** update_stimuli_params for the type now shown in the combo box: its fields, empty. */
    method UpdateStimuliParams(source: string)
      requires Valid()
      modifies this`sourceType, this`paramWidgets
      ensures Valid()
      ensures sourceType == source && paramWidgets == Blank(Schema(source))
    {
      sourceType := source;
      paramWidgets := Blank(Schema(source));
    }

    /** update_analysis_params for the analysis type now shown: its fields, empty. */
    method UpdateAnalysisParams(analysis: string)
      requires Valid()
      modifies this`analysisType, this`analysisWidgets
      ensures Valid()
      ensures analysisType == analysis && analysisWidgets == Blank(AnalysisKeys(analysis))
    {
      analysisType := analysis;
      analysisWidgets := Blank(AnalysisKeys(analysis));
    }

    /** The user types into the name and node fields. */
    method EnterSource(name: string, node: string)
      requires Valid()
      modifies this`sourceNameText, this`nodeText
      ensures Valid() && sourceNameText == name && nodeText == node
    {
      sourceNameText, nodeText := name, node;
    }

    /** The user types into a parameter field shown for the current type. */
    method EnterParam(key: string, text: string)
      requires Valid() && key in paramWidgets
      modifies this`paramWidgets
      ensures Valid() && paramWidgets == old(paramWidgets)[key := text]
    {
      paramWidgets := paramWidgets[key := text];
    }

    /** The user types into an analysis field shown for the current type. */
    method EnterAnalysisField(key: string, text: string)
      requires Valid() && key in analysisWidgets
      modifies this`analysisWidgets
      ensures Valid() && analysisWidgets == old(analysisWidgets)[key := text]
    {
      analysisWidgets := analysisWidgets[key := text];
    }

    /** import_netlist with the text of the file chosen: kept as the prefix of later netlists
        and shown. */
    method ImportNetlist(text: string)
      requires Valid()
      modifies this`importedNetlist, this`netlistText
      ensures Valid() && importedNetlist == text && netlistText == text
    {
      importedNetlist := text;
      netlistText := text;
    }

    /** add_stimuli: without a name or a node (once stripped) nothing changes; otherwise one
        record is appended to the list and its label to the list widget, and the fields are
        emptied. */
    method AddStimuli() returns (added: bool)
      requires Valid()
      modifies this`stimuli, this`listItems, this`sourceNameText, this`nodeText, this`paramWidgets
      ensures Valid()
      ensures added <==> Strip(old(sourceNameText)) != "" && Strip(old(nodeText)) != ""
      ensures !added ==> && stimuli == old(stimuli) && listItems == old(listItems)
                         && sourceNameText == old(sourceNameText) && nodeText == old(nodeText)
                         && paramWidgets == old(paramWidgets)
      ensures added ==>
        && stimuli == old(stimuli) + [Entered(sourceType, old(sourceNameText), old(nodeText), old(paramWidgets))]
        && sourceNameText == "" && nodeText == "" && paramWidgets == Blank(Schema(sourceType))
    {
      var name := Strip(sourceNameText);
      var node := Strip(nodeText);
      if name == "" || node == "" {
        return false;
      }
      var stim := Entered(sourceType, sourceNameText, nodeText, paramWidgets);
      EnteredConforms(sourceType, sourceNameText, nodeText, paramWidgets);
      LabelsAppend(stimuli, stim);
      stimuli := stimuli + [stim];
      listItems := listItems + [Label(stim)];
      sourceNameText := "";
      nodeText := "";
      paramWidgets := Blank(Schema(sourceType));
      added := true;
    }

    /** remove_selected_stimuli: the selected rows in reverse order, each popped from the list
        and taken from the list widget; a row past the end raises IndexError and stops. */
    method RemoveSelectedStimuli(selected: seq<nat>) returns (raised: bool)
      requires Valid()
      modifies this`stimuli, this`listItems
      ensures Valid()
      ensures (stimuli, raised) == Pops(old(stimuli), selected)
    {
      var i := |selected|;
      raised := false;
      assert selected[..i] == selected;
      while i > 0
        invariant 0 <= i <= |selected|
        invariant Valid()
        invariant Pops(stimuli, selected[..i]) == Pops(old(stimuli), selected)
      {
        assert selected[..i][..i - 1] == selected[..i - 1];
        var r := selected[i - 1];
        if r >= |stimuli| {
          raised := true;
          return;
        }
        LabelsRemoveAt(stimuli, r);
        stimuli := RemoveAt(stimuli, r);
        listItems := RemoveAt(listItems, r);
        i := i - 1;
      }
      assert selected[..0] == [];
    }

    /** generate_netlist. The lenient variant always writes the netlist; the strict one raises
        KeyError on a missing field and then shows nothing new. On records made by this window
        the two write the same text and the strict one never raises. */
    method GenerateNetlist() returns (error: Option<string>)
      requires Valid()
      modifies this`netlistText
      ensures Valid()
      ensures !strict ==> error == None && netlistText == Netlist(importedNetlist, stimuli, analysisType, analysisWidgets)
      ensures strict ==> match StrictNetlist(importedNetlist, stimuli, analysisType, analysisWidgets)
        case Ok(t) => error == None && netlistText == t
        case KeyError(k) => error == Some(k) && netlistText == old(netlistText)
      ensures error == None && netlistText == Netlist(importedNetlist, stimuli, analysisType, analysisWidgets)
    {
      StrictAgrees(importedNetlist, stimuli, analysisType, analysisWidgets);
      ReadyInWindow();
      if !strict {
        netlistText := Netlist(importedNetlist, stimuli, analysisType, analysisWidgets);
        error := None;
      } else {
        var r := StrictNetlist(importedNetlist, stimuli, analysisType, analysisWidgets);
        match r
        case Ok(t) =>
          netlistText := t;
          error := None;
        case KeyError(k) =>
          error := Some(k);
      }
    }

    /** The analysis fields shown are the ones the strict variant reads. */
    lemma ReadyInWindow()
      requires Valid()
      ensures AnalysisReady(analysisType, analysisWidgets, stimuli)
    {
    }

    /** clear_netlist, in the lenient variant only: the shown netlist and the imported text are
        emptied, so the next netlist starts with the default header. */
    method ClearNetlist()
      requires Valid() && !strict
      modifies this`netlistText, this`importedNetlist
      ensures Valid() && netlistText == "" && importedNetlist == ""
      ensures Header(importedNetlist) == DefaultHeader
    {
      netlistText := "";
      importedNetlist := "";
    }
  }
}
