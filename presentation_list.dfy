/**
 * The dashboard list (components/Dashboard/PresentationList.tsx): the list of presentations with
 * its loading, error and copied-link state, the operations that change that state, and what the
 * component draws from it. The network calls, `confirm` and the page origin are parameters.
 */
module Dashboard {
  import opened Wrappers
  import opened Js
  import opened Text
  import opened Types

  const FetchFailed := "Failed to fetch presentations"
  const DeleteFailed := "Failed to delete presentation"

  // ---------------------------------------------------------------------------
  // Pure pieces

  /** `presentations.filter((p) => p.id !== id)`. */
  function RemoveById(ps: seq<Presentation>, id: string): (r: seq<Presentation>)
    ensures |r| <= |ps|
    ensures forall k :: 0 <= k < |r| ==> r[k].id != id && r[k] in ps
  {
    if ps == [] then []
    else if ps[0].id == id then RemoveById(ps[1..], id)
    else [ps[0]] + RemoveById(ps[1..], id)
  }

  /** Filtering works piece by piece, so the kept entries stay in their order. */
  lemma {:induction false} RemoveByIdConcat(a: seq<Presentation>, b: seq<Presentation>, id: string)
    ensures RemoveById(a + b, id) == RemoveById(a, id) + RemoveById(b, id)
    decreases |a|
  {
    if a == [] {
      assert a + b == b;
    } else {
      assert (a + b)[0] == a[0] && (a + b)[1..] == a[1..] + b;
      RemoveByIdConcat(a[1..], b, id);
    }
  }

  /** Entries with another id are all kept; together with `RemoveByIdConcat`, exactly the others remain, in order. */
  lemma {:induction false} RemoveByIdKeepsOthers(ps: seq<Presentation>, id: string)
    ensures forall p :: p in ps && p.id != id ==> p in RemoveById(ps, id)
    ensures (forall p :: p in ps ==> p.id != id) ==> RemoveById(ps, id) == ps
    decreases |ps|
  {
    if ps != [] {
      RemoveByIdKeepsOthers(ps[1..], id);
      assert forall p :: p in ps ==> p == ps[0] || p in ps[1..];
      if forall p :: p in ps ==> p.id != id {
        assert [ps[0]] + ps[1..] == ps;
      }
    }
  }

  /** Removing twice is removing once. */
  lemma RemoveByIdIdempotent(ps: seq<Presentation>, id: string)
    ensures RemoveById(RemoveById(ps, id), id) == RemoveById(ps, id)
  {
    RemoveByIdKeepsOthers(RemoveById(ps, id), id);
  }

  const PurpleBadge := "bg-purple-500/20 text-purple-300 border-purple-500/30"
  const GrayBadge := "bg-gray-500/20 text-gray-300 border-gray-500/30"
  const BlueBadge := "bg-blue-500/20 text-blue-300 border-blue-500/30"

  /** `getThemeBadgeColor`: purple for executive, blue for tech, gray for minimal and for anything else. */
  function BadgeColor(theme: string): (c: string)
    ensures theme == "executive" ==> c == PurpleBadge
    ensures theme == "tech" ==> c == BlueBadge
    ensures theme != "executive" && theme != "tech" ==> c == GrayBadge
  {
    if theme == "executive" then PurpleBadge
    else if theme == "minimal" then GrayBadge
    else if theme == "tech" then BlueBadge
    else GrayBadge
  }

  /** An unknown theme is drawn exactly like minimal. */
  lemma UnknownThemeLooksMinimal(theme: string)
    requires ParseTheme(theme).None?
    ensures BadgeColor(theme) == BadgeColor(ThemeName(Minimal))
  {
  }

  /** The link `copyShareLink` puts on the clipboard. */
  function ShareUrl(origin: string, token: string): (url: string)
    ensures StartsWith(url, origin)
    ensures url[|origin|..] == "/p/" + token
  {
    var url := origin + "/p/" + token;
    assert url[..|origin|] == origin;
    assert url == origin + ("/p/" + token);
    url
  }

  /** The client column: the name when truthy, `-` otherwise. */
  function ClientCell(clientName: Option<string>): (cell: string)
    ensures Truthy(clientName) ==> cell == clientName.value
    ensures !Truthy(clientName) ==> cell == "-"
  {
    if Truthy(clientName) then clientName.value else "-"
  }

  /** One drawn row of the table. */
  datatype RowView = RowView(id: string, title: string, client: string, theme: string, badge: string, shareLabel: string)

  /** What the component draws. */
  datatype ListView = LoadingView | ErrorView(message: string) | EmptyView | TableView(rows: seq<RowView>)

  /** What a `fetch('/api/presentations')` yields: a status and the body read as JSON, or a thrown value. */
  datatype ListBody = ListBody(error: Option<string>, presentations: seq<Presentation>)
  datatype ListFetch = ListResponded(ok: bool, body: Result<ListBody, Exception>) | ListRejected(reason: Exception)

  /** What the `DELETE` request yields. */
  datatype DeleteFetch = DeleteResponded(ok: bool) | DeleteRejected(reason: Exception)

  // ---------------------------------------------------------------------------
  // The component state

  class PresentationList {
    var presentations: seq<Presentation>
    var loading: bool
    var error: Option<string>
    var copiedToken: Option<string>

    /** The initial state; a fetch follows exactly when it starts loading. */
    constructor(initial: seq<Presentation>)
      ensures presentations == initial && error == None && copiedToken == None
      ensures loading <==> initial == []
    {
      presentations := initial;
      loading := |initial| == 0;
      error := None;
      copiedToken := None;
    }

    /** `fetchPresentations`: an OK response replaces the list; any failure sets the error. Loading always ends. */
    method FetchPresentations(outcome: ListFetch)
      modifies this
      ensures !loading && copiedToken == old(copiedToken)
      ensures outcome.ListResponded? && outcome.body.Success? && outcome.ok ==>
        presentations == outcome.body.value.presentations && error == old(error)
      ensures outcome.ListRejected? ==>
        error == Some(MessageOr(outcome.reason, FetchFailed)) && presentations == old(presentations)
      ensures outcome.ListResponded? && outcome.body.Failure? ==>
        error == Some(MessageOr(outcome.body.error, FetchFailed)) && presentations == old(presentations)
      ensures outcome.ListResponded? && outcome.body.Success? && !outcome.ok ==>
        error == Some(if Truthy(outcome.body.value.error) then outcome.body.value.error.value else FetchFailed)
        && presentations == old(presentations)
    {
      match outcome {
        case ListRejected(e) =>
          error := Some(MessageOr(e, FetchFailed));
        case ListResponded(ok, body) =>
          match body {
            case Failure(e) =>
              error := Some(MessageOr(e, FetchFailed));
            case Success(data) =>
              if !ok {
                var thrown := Exception(true, "Error", if Truthy(data.error) then data.error.value else FetchFailed);
                error := Some(MessageOr(thrown, FetchFailed));
              } else {
                presentations := data.presentations;
              }
          }
      }
      loading := false;
    }

    /**
     * `handleDelete(id)`: after a confirmed, successful DELETE exactly the entries with that id
     * are gone; a cancelled or failed delete changes nothing and a failure is reported in `alert`.
     */
    method HandleDelete(id: string, confirmed: bool, outcome: DeleteFetch) returns (alert: Option<string>)
      modifies this
      ensures loading == old(loading) && error == old(error) && copiedToken == old(copiedToken)
      ensures confirmed && outcome == DeleteResponded(true) ==>
        presentations == RemoveById(old(presentations), id) && alert == None
      ensures !(confirmed && outcome == DeleteResponded(true)) ==> presentations == old(presentations)
      ensures !confirmed ==> alert == None
      ensures confirmed && outcome == DeleteResponded(false) ==> alert == Some(DeleteFailed)
      ensures confirmed && outcome.DeleteRejected? ==> alert == Some(MessageOr(outcome.reason, DeleteFailed))
    {
      alert := None;
      if !confirmed {
        return;
      }
      match outcome
      case DeleteRejected(e) =>
        alert := Some(MessageOr(e, DeleteFailed));
      case DeleteResponded(ok) =>
        if !ok {
          alert := Some(DeleteFailed);
        } else {
          presentations := RemoveById(presentations, id);
        }
    }

    /** `copyShareLink(token)`: returns the link written to the clipboard and marks the token as copied. */
    method CopyShareLink(origin: string, token: string) returns (url: string)
      modifies this
      ensures url == ShareUrl(origin, token)
      ensures copiedToken == Some(token)
      ensures presentations == old(presentations) && loading == old(loading) && error == old(error)
    {
      url := ShareUrl(origin, token);
      copiedToken := Some(token);
    }

    /** The timer two seconds after a copy clears the mark. */
    method ClearCopied()
      modifies this
      ensures copiedToken == None
      ensures presentations == old(presentations) && loading == old(loading) && error == old(error)
    {
      copiedToken := None;
    }

    /** The share button's label for a row. */
    function ShareLabel(token: string): (text: string)
      reads this
      ensures text == "Copied!" <==> copiedToken == Some(token)
      ensures text != "Copied!" ==> text == "Share"
    {
      if copiedToken == Some(token) then "Copied!" else "Share"
    }

    /** The drawn rows, one per presentation, in list order. */
    function Rows(): (rows: seq<RowView>)
      reads this
      ensures |rows| == |presentations|
      ensures forall k :: 0 <= k < |rows| ==>
        var p := presentations[k];
        rows[k] == RowView(p.id, p.title, ClientCell(p.clientName), ThemeName(p.theme),
          BadgeColor(ThemeName(p.theme)), ShareLabel(p.shareToken))
    {
      seq(|presentations|, k reads this requires 0 <= k < |presentations| =>
        var p := presentations[k];
        RowView(p.id, p.title, ClientCell(p.clientName), ThemeName(p.theme),
          BadgeColor(ThemeName(p.theme)), ShareLabel(p.shareToken)))
    }

    /** The render branches: loading first, then a truthy error, then the empty prompt, then the table. */
    function View(): (v: ListView)
      reads this
      ensures v.LoadingView? <==> loading
      ensures v.ErrorView? <==> !loading && Truthy(error)
      ensures v.EmptyView? <==> !loading && !Truthy(error) && presentations == []
      ensures v.TableView? ==> v.rows == Rows() && |v.rows| > 0
    {
      if loading then LoadingView
      else if Truthy(error) then ErrorView(error.value)
      else if |presentations| == 0 then EmptyView
      else TableView(Rows())
    }
  }

  /** At most one row shows `Copied!`, when tokens are distinct: the one whose token was last copied. */
  lemma OnlyCopiedRowSaysCopied(list: PresentationList, i: nat, j: nat)
    requires i < |list.presentations| && j < |list.presentations| && i != j
    requires list.presentations[i].shareToken != list.presentations[j].shareToken
    ensures !(list.ShareLabel(list.presentations[i].shareToken) == "Copied!"
      && list.ShareLabel(list.presentations[j].shareToken) == "Copied!")
  {
  }
}
