/**
 * The scan of the process arguments that NetworkManager.Start does for a
 * "+connect_lobby <lobby id>" switch.
 */
module LaunchArguments {
  const ConnectLobbyFlag: string := "+connect_lobby"

  /**
   * The argument picked up by the scan: the one right after the last
   * occurrence of the flag that still has an argument after it, or "" when
   * there is none.
   */
  function ChosenArgument(args: seq<string>): string {
    if |args| < 2 then ""
    else if args[|args| - 2] == ConnectLobbyFlag then args[|args| - 1]
    else ChosenArgument(args[..|args| - 1])
  }

  /** When the flag occurs at k and at no later position that has a follower, the value is args[k + 1]. */
  lemma {:induction false} ChosenArgumentAfterLastFlag(args: seq<string>, k: nat)
    requires k + 1 < |args| && args[k] == ConnectLobbyFlag
    requires forall j :: k < j < |args| - 1 ==> args[j] != ConnectLobbyFlag
    ensures ChosenArgument(args) == args[k + 1]
  {
    if k + 2 < |args| {
      assert args[|args| - 2] != ConnectLobbyFlag;
      var p := args[..|args| - 1];
      assert forall j :: k < j < |p| - 1 ==> p[j] == args[j];
      ChosenArgumentAfterLastFlag(p, k);
    }
  }

  /** Without a flag that has a following argument, nothing is picked up. */
  lemma {:induction false} ChosenArgumentWithoutFlag(args: seq<string>)
    requires forall j :: 0 <= j < |args| - 1 ==> args[j] != ConnectLobbyFlag
    ensures ChosenArgument(args) == ""
  {
    if |args| >= 2 {
      var p := args[..|args| - 1];
      assert forall j :: 0 <= j < |p| - 1 ==> p[j] == args[j];
      ChosenArgumentWithoutFlag(p);
    }
  }

  /** The index loop of Start: every flag with a follower overwrites the value found so far. */
  method ScanConnectLobbyArgument(args: seq<string>) returns (input: string)
    ensures input == ChosenArgument(args)
  {
    input := "";
    var i := 0;
    while i < |args|
      invariant 0 <= i <= |args|
      invariant input == ChosenArgument(args[..if i < |args| then i + 1 else i])
    {
      if args[i] == ConnectLobbyFlag && |args| > i + 1 {
        input := args[i + 1];
      }
      if i + 1 < |args| {
        assert args[..i + 2][..i + 1] == args[..i + 1];
      }
      i := i + 1;
    }
    assert args[..|args|] == args;
  }
}
