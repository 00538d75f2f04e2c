/** The view manager (`ViewManager`): the save dialog with its form, the
    two view pickers (saved views and two fixed samples), and the Active
    marker of the current view. */
module ViewManager {
  import opened JsValues
  import CashFlowConsole

  type SavedView = CashFlowConsole.SavedView

  /** What the save form submits. It has only name and description fields,
      so `filters` and `columns` are always `None` (`undefined`) from it. */
  datatype FormValues = FormValues(name: string, description: string,
                                   filters: Option<seq<CashFlowConsole.FilterEntry>>, columns: Option<seq<string>>)

  /** `handleSaveView(values)`'s payload: `filters` defaults to `{}` and
      `columns` to `[]`. */
  function Payload(values: FormValues): (d: CashFlowConsole.ViewData)
    ensures d.name == values.name && d.description == values.description
    ensures d.filters == Some(if values.filters.Some? then values.filters.value else [])
    ensures d.columns == Some(if values.columns.Some? then values.columns.value else [])
  {
    CashFlowConsole.ViewData(values.name, values.description,
                             Some(if values.filters.Some? then values.filters.value else []),
                             Some(if values.columns.Some? then values.columns.value else []))
  }

  /** A view saved from the form has no filters and no column list. */
  lemma FormViewIsEmpty(name: string, description: string, id: string, createdAt: string)
    ensures var v := CashFlowConsole.NewView(Payload(FormValues(name, description, None, None)), id, createdAt);
      v.filters == [] && v.columns == [] && v.name == name && v.id == id
  {
  }

  function HasId(id: string): SavedView -> bool
  {
    (v: SavedView) => v.id == id
  }

  /** `savedViews.find(v => v.id === viewId)`: the view `handleViewSelect`
      loads, `None` (nothing loaded) for an unknown id. */
  function SelectView(views: seq<SavedView>, id: string): (r: Option<SavedView>)
    ensures r.None? <==> forall i :: 0 <= i < |views| ==> views[i].id != id
    ensures r.Some? ==> r.value in views && r.value.id == id
  {
    Find(views, HasId(id))
  }

  /** With distinct ids the loaded view is the one with that id. */
  lemma SelectViewFinds(views: seq<SavedView>, k: nat)
    requires k < |views|
    requires forall i, j :: 0 <= i < j < |views| ==> views[i].id != views[j].id
    ensures SelectView(views, views[k].id) == Some(views[k])
  {
    var r := Find(views, HasId(views[k].id));
    assert HasId(views[k].id)(views[k]);
    var i :| 0 <= i < |views| && views[i] == r.value && HasId(views[k].id)(views[i]);
    assert i == k;
  }

  /** The two sample views. They set no `createdAt`; its undefined value is
      written `""` here. */
  const SampleViews: seq<SavedView> := [
    CashFlowConsole.SavedView("sample-1", "Active Trades", "Show all active cashflow records",
      [CashFlowConsole.FilterEntry("cashflowStatus", CashFlowConsole.Choices([Str("Active")]))],
      ["cashflowNumber", "tradeNumber", "buySell", "commodity", "quantity", "price"], ""),
    CashFlowConsole.SavedView("sample-2", "Pending Invoices", "Records waiting for invoicing",
      [CashFlowConsole.FilterEntry("invoiceStatus", CashFlowConsole.Choices([Str("Not Invoiced")]))],
      ["cashflowNumber", "tradeNumber", "counterpart", "quantity", "extendedAmount"], "")
  ]

  /** `handleSampleViewSelect(viewId)`: the two sample ids load their view,
      any other id loads nothing. */
  lemma SampleViewSelect(id: string)
    ensures id == "sample-1" ==> SelectView(SampleViews, id) == Some(SampleViews[0])
    ensures id == "sample-2" ==> SelectView(SampleViews, id) == Some(SampleViews[1])
    ensures id != "sample-1" && id != "sample-2" ==> SelectView(SampleViews, id).None?
  {
    if id == "sample-1" || id == "sample-2" {
      assert SampleViews[0].id != SampleViews[1].id;
      SelectViewFinds(SampleViews, if id == "sample-1" then 0 else 1);
    }
  }

  /** The Active tag beside a listed view. */
  predicate IsActive(current: Option<SavedView>, view: SavedView)
  {
    current.Some? && current.value.id == view.id
  }

  /** With distinct ids at most one listed view is marked Active, and the
      view just loaded is. */
  lemma ActiveIsUnique(views: seq<SavedView>, current: Option<SavedView>)
    requires forall i, j :: 0 <= i < j < |views| ==> views[i].id != views[j].id
    ensures forall i, j :: 0 <= i < |views| && 0 <= j < |views| && IsActive(current, views[i]) && IsActive(current, views[j]) ==> i == j
    ensures current.Some? && current.value in views ==> exists i :: 0 <= i < |views| && IsActive(current, views[i])
  {
    if current.Some? && current.value in views {
      var i :| 0 <= i < |views| && views[i] == current.value;
      assert IsActive(current, views[i]);
    }
  }

  const EmptyForm := FormValues("", "", None, None)

  class Manager {
    var isModalVisible: bool
    var form: FormValues

    constructor()
      ensures !isModalVisible && form == EmptyForm
    {
      isModalVisible := false;
      form := EmptyForm;
    }

    /** The Save View button. */
    method OpenSaveDialog()
      modifies this`isModalVisible
      ensures isModalVisible
    {
      isModalVisible := true;
    }

    /** `handleSaveView(values)`: the payload goes to `onViewSave`, the
        dialog closes and the form is reset. */
    method HandleSaveView(values: FormValues) returns (payload: CashFlowConsole.ViewData)
      modifies this`isModalVisible, this`form
      ensures payload == Payload(values)
      ensures !isModalVisible && form == EmptyForm
    {
      payload := Payload(values);
      isModalVisible := false;
      form := EmptyForm;
    }

    /** Cancelling the dialog closes it and resets the form. */
    method CancelSave()
      modifies this`isModalVisible, this`form
      ensures !isModalVisible && form == EmptyForm
    {
      isModalVisible := false;
      form := EmptyForm;
    }
  }
}
