/** Which wizard states are saved as configurations that serve accepts, and
    which edits keep them so. */
module Validity {
  import opened Domain
  import opened Mac
  import opened SaveLoad
  import opened Wizard
  import opened ValidEdits

  // ---------------------------------------------------------------- states

  /** What the wizard saves validates exactly when its services do and its state
      is valid; so in particular every default is among its client's entries. */
  lemma StateValidExactly(s: State, out: FullConfig)
    requires out.menus == EntriesOf(s.menus) && out.clients == ClientsFrom(s.clients)
    ensures EntriesValid(out.menus, out.clients) <==> StateValid(s)
    ensures out.Valid() <==> ServicesValid(out) && StateValid(s)
    ensures StateValid(s) ==> DefaultsOk(s)
  {
    hide MenuEntryOf, ClientOf, MenuStateValid, ClientStateValid, ServicesValid;
    forall i | 0 <= i < |s.menus| ensures out.menus[i].Valid() <==> MenuStateValid(s.menus[i]) {
      MenuValidExactly(s.menus[i]);
    }
    forall i | 0 <= i < |s.clients| ensures out.clients[i].Valid() <==> ClientStateValid(s.clients[i]) {
      ClientValidExactly(s.clients[i]);
    }
    EachMember(out.menus, out.clients);
    ValidDefaults(s);
    ValidParts(out);
  }

  // ---------------------------------------------------------------- edits

  /** Which edits keep a state valid, both ways. */
  lemma EditKeepsValidExactly(s: State, e: Edit)
    requires StateValid(s) && Possible(s, e)
    ensures StateValid(Apply(s, e)) <==> SparesValidity(s, e)
  {
    hide StateValid, MenuStateValid, Netboot, EditMenu, RemoveMenu, SetWildcardEntries, AddClient, EditClient;
    hide RemoveClient;
    hide ParsedMAC, Offered, ClientInputOk, MenuInputOk, OtherThan, WildcardLast, Bootable;
    match e
    case DoNetboot(m) => NetbootValid(s, m);
    case DoAddMenu(m) => AddMenuValid(s, m);
    case DoEditMenu(i, m) => EditMenuValid(s, i, m);
    case DoRemoveMenu(i) => RemoveMenuValid(s, i);
    case DoSetWildcard(es) => SetWildcardValid(s, es);
    case DoAddClient(c) => AddClientValid(s, c);
    case DoEditClient(i, c) => EditClientValid(s, i, c);
    case DoRemoveClient(i) => RemoveClientValid(s, i);
  }

  // ---------------------------------------------------------------- sessions

  /** Whenever the user saves in a session, what is saved validates, as far as
      menus and clients go, exactly when every edit of it keeps validity. */
  lemma {:induction false} SessionValidExactly(s: State, edits: seq<Edit>)
    requires StateValid(s)
    ensures ValidThroughout(s, edits) <==> SparedValidity(s, edits)
    decreases |edits|
  {
    hide StateValid, Possible, Apply, SparesValidity, ValidThroughout;
    if edits == [] {
      assert ValidThroughout(s, []) by { ValidAtStart(s, []); }
    } else {
      ValidStep(s, edits);
      if Possible(s, edits[0]) {
        EditKeepsValidExactly(s, edits[0]);
        var t := Apply(s, edits[0]);
        if SparesValidity(s, edits[0]) {
          SessionValidExactly(t, edits[1..]);
        } else {
          ValidAtStart(t, edits[1..]);
        }
      } else {
        SessionValidExactly(s, edits[1..]);
      }
    }
  }

  /** A first run starts from a valid state. */
  lemma DefaultStateValid()
    ensures StateValid(DefaultState())
  {
    hide ParsedMAC, ParseMenuType;
    KnownTypes();
    WildcardParses();
  }
}
