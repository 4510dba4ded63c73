/** The package states that are published in messages. */
module MessageState {
  import opened Wrappers
  import opened Builds

  datatype MsgState = Ignored | Unresolved | Ok | Failing

  /** Package.msg_state_string, from blocked, tracked, resolved and last_complete_build_state */
  function MsgStateFor(blocked: bool, tracked: bool, resolved: Option<bool>,
                       lastComplete: Option<BuildState>): MsgState {
    if blocked || !tracked then Ignored
    else if resolved == Some(false) then Unresolved
    else match lastComplete
      case Some(Complete) => Ok
      case Some(Failed) => Failing
      case _ => Ignored
  }

  /** The state that is published: that of the last complete build, for a package that is neither blocked nor
      untracked and whose dependencies are not known to be missing. */
  lemma MsgStateMeans(blocked: bool, tracked: bool, resolved: Option<bool>, lastComplete: Option<BuildState>)
    ensures
      var state := MsgStateFor(blocked, tracked, resolved, lastComplete);
      && (state == Ok <==> !blocked && tracked && resolved != Some(false) && lastComplete == Some(Complete))
      && (state == Failing <==> !blocked && tracked && resolved != Some(false) && lastComplete == Some(Failed))
      && (state == Unresolved <==> !blocked && tracked && resolved == Some(false))
  {
  }
}
