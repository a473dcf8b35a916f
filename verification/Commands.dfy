/** A reader of the commands that requests begin with, which knows nothing of how they are written. */
module Commands {
  import opened Wrappers
  import opened Text
  import opened Exchanges
  import SetNetwork

  /** The request that a command is for, other than a custom one. */
  function Read(cmd: string): Option<Kind> {
    if cmd == "STATUS" then Some(Status)
    else if cmd == "LIST_NETWORKS" then Some(Networks)
    else if cmd == "SCAN" then Some(Scan)
    else if cmd == "ADD_NETWORK" then Some(AddNetwork)
    else if cmd == "SAVE_CONFIG" then Some(SaveConfig)
    else if cmd == "RECONFIGURE" then Some(ReloadConfig)
    else match SplitOnce(cmd, ' ')
      case None => None
      case Some((verb, rest)) => ReadWithArgument(cmd, verb, rest)
  }

  function ReadWithArgument(cmd: string, verb: string, rest: string): Option<Kind> {
    if verb == "REMOVE_NETWORK" then
      if rest == "all" then Some(RemoveNetwork(None))
      else match ParseUnsigned(rest, USIZE_MAX)
        case None => None
        case Some(id) => Some(RemoveNetwork(Some(id)))
    else if verb == "SELECT_NETWORK" then
      match ParseUnsigned(rest, USIZE_MAX)
      case None => None
      case Some(id) => Some(SelectNetwork(id))
    else if verb == "SET_NETWORK" then
      match SetNetwork.ReadCommand(cmd)
      case None => None
      case Some((id, p)) => Some(Kind.SetNetwork(id, p))
    else None
  }

  /** What the library's own types guarantee of a request's arguments. */
  predicate ValidKind(k: Kind) {
    match k
    case SetNetwork(id, p) => id <= USIZE_MAX && SetNetwork.ValidParam(p)
    case RemoveNetwork(Some(id)) => id <= USIZE_MAX
    case SelectNetwork(id) => id <= USIZE_MAX
    case _ => true
  }

  /** Every request but a custom one can be read back from its first command, kind and arguments; a custom one is
      sent as it is. */
  lemma FirstCommandReadable(k: Kind)
    requires ValidKind(k)
    ensures if k.Custom? then FirstCommand(k) == k.text else Read(FirstCommand(k)) == Some(k)
  {
    hide SplitOnce, ParseUnsigned, SetNetwork.ReadCommand, Decimal, SetNetwork.ValidParam;
    match k
    case RemoveNetwork(target) => RemovalReadable(target);
    case SelectNetwork(id) => SelectionReadable(id);
    case SetNetwork(id, p) => SettingReadable(id, p);
    case _ =>
  }

  lemma NumberReadable(verb: string, id: nat)
    requires ' ' !in verb && verb != "" && id <= USIZE_MAX
    ensures var (cmd, digits) := (verb + " " + Decimal(id), Decimal(id));
      && SplitOnce(cmd, ' ') == Some((verb, digits)) && ParseUnsigned(digits, USIZE_MAX) == Some(id)
      && digits != "all" && ' ' in cmd
  {
    hide SplitOnce, ParseUnsigned;
    SplitOnceAt(verb, ' ', Decimal(id));
    ParseDecimal(id, USIZE_MAX);
    assert IsDigit(Decimal(id)[0]);
    assert (verb + " " + Decimal(id))[|verb|] == ' ';
  }

  lemma RemovalReadable(target: Option<nat>)
    requires target.Some? ==> target.value <= USIZE_MAX
    ensures Read(FirstCommand(RemoveNetwork(target))) == Some(RemoveNetwork(target))
  {
    hide SplitOnce, ParseUnsigned, SetNetwork.ReadCommand, Decimal;
    match target
    case None =>
      SplitOnceAt("REMOVE_NETWORK", ' ', "all");
      assert "REMOVE_NETWORK" + " " + "all" == "REMOVE_NETWORK all" && "REMOVE_NETWORK all"[14] == ' ';
    case Some(id) =>
      NumberReadable("REMOVE_NETWORK", id);
      assert "REMOVE_NETWORK" + " " + Decimal(id) == "REMOVE_NETWORK " + Decimal(id);
  }

  lemma SelectionReadable(id: nat)
    requires id <= USIZE_MAX
    ensures Read(FirstCommand(SelectNetwork(id))) == Some(SelectNetwork(id))
  {
    hide SplitOnce, ParseUnsigned, SetNetwork.ReadCommand, Decimal;
    NumberReadable("SELECT_NETWORK", id);
    assert "SELECT_NETWORK" + " " + Decimal(id) == "SELECT_NETWORK " + Decimal(id);
  }

  lemma SettingReadable(id: nat, p: SetNetwork.Param)
    requires id <= USIZE_MAX && SetNetwork.ValidParam(p)
    ensures Read(FirstCommand(Kind.SetNetwork(id, p))) == Some(Kind.SetNetwork(id, p))
  {
    hide SplitOnce, SetNetwork.ReadCommand, Decimal, SetNetwork.ValidParam;
    SetNetwork.CommandReadable(id, p);
    var rest := Decimal(id) + " " + (SetNetwork.FieldName(p) + " " + SetNetwork.FieldValue(p));
    SplitOnceAt("SET_NETWORK", ' ', rest);
    var cmd := SetNetwork.Command(id, p);
    assert cmd == "SET_NETWORK" + " " + rest && cmd[11] == ' ';
  }

  /** A conversation begins with the command of its request. */
  lemma ConcludesFirst(k: Kind, xs: seq<Exchange>, a: Answer)
    requires Concludes(k, xs, a)
    ensures xs != [] && xs[0].cmd == FirstCommand(k)
  {
    hide Conclude, Rows, SimpleAnswer;
  }
}
