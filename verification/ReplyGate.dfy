/**
 From the agent's proposed reply to an action: composing the text, resolving the reply policy, and the
 end of a task session that decides between an automatic reply, an approval and a notice.
 */
module ReplyGate {
  import opened Base
  import opened ReplyText
  import opened ReplyMention
  import Membership
  import ResourceModel

  datatype ChatType = PeerToPeer | Group | OtherChat

  /** The message replied to; `fromBot` says its sender is a bot or an agent. */
  datatype Target = Target(senderId: string, senderName: string, fromBot: bool)

  datatype Composed = Composed(text: string, hadForbidden: bool)

  // ---------------------------------------------------------------- composing

  predicate IsMentioned(owner: string, chatType: ChatType, target: Option<Target>) {
    chatType.Group? && target.Some? && target.value.senderId != "" && target.value.senderId != owner && !target.value.fromBot
  }

  function OwnMention(target: Target): string {
    "<at user_id=\"" + target.senderId + "\">"
    + EscapeDisplay(if target.senderName != "" then target.senderName else target.senderId) + "</at>"
  }

  /** `SendComposer.compose` */
  function Compose(c: Chars, owner: string, proposed: string, target: Option<Target>, chatType: ChatType): Composed {
    var cleaned := Clean(c, proposed);
    Composed(if IsMentioned(owner, chatType, target) then Strip(c, OwnMention(target.value) + " " + cleaned) else cleaned,
             HadForbidden(c, proposed))
  }

  /** A text that has no whitespace at either end. */
  predicate IsStripped(c: Chars, s: string) {
    s == [] || (!c.isSpace(s[0]) && !c.isSpace(s[|s| - 1]))
  }

  lemma {:induction false} StripLeftStarts(c: Chars, s: string)
    ensures StripLeft(s, c.isSpace) != [] ==> !c.isSpace(StripLeft(s, c.isSpace)[0])
    ensures s != [] && !c.isSpace(s[|s| - 1]) ==>
              StripLeft(s, c.isSpace) != [] && StripLeft(s, c.isSpace)[|StripLeft(s, c.isSpace)| - 1] == s[|s| - 1]
  {
    if s != [] && c.isSpace(s[0]) {
      StripLeftStarts(c, s[1..]);
    }
  }

  lemma {:induction false} StripRightEnds(c: Chars, s: string)
    ensures var r := StripRight(s, c.isSpace); r != [] ==> !c.isSpace(r[|r| - 1])
  {
    if s != [] && c.isSpace(s[|s| - 1]) {
      StripRightEnds(c, s[..|s| - 1]);
    }
  }

  lemma StripStrips(c: Chars, s: string)
    ensures IsStripped(c, Strip(c, s))
  {
    StripRightEnds(c, s);
    StripLeftStarts(c, StripRight(s, c.isSpace));
  }

  lemma StrippedStays(c: Chars, s: string)
    requires IsStripped(c, s)
    ensures Strip(c, s) == s
  {
  }

  /** How the text reads: the composer's mention, then the cleaned reply. */
  function WithMention(mention: string, body: string): string {
    if body == [] then mention else mention + " " + body
  }

  lemma MentionLeads(c: Chars, mention: string, body: string)
    requires c.isSpace(' ') && IsStripped(c, body) && mention != [] && IsStripped(c, mention)
    ensures Strip(c, mention + " " + body) == WithMention(mention, body)
  {
    var s := mention + " " + body;
    if body == [] {
      assert s == mention + " " && s[..|s| - 1] == mention;
      assert StripRight(s, c.isSpace) == StripRight(mention, c.isSpace);
      StrippedStays(c, mention);
    } else {
      assert s[0] == mention[0] && s[|s| - 1] == body[|body| - 1];
      StrippedStays(c, s);
    }
  }

  lemma OwnMentionIsStripped(c: Chars, target: Target)
    requires Sane(c)
    ensures OwnMention(target) != [] && IsStripped(c, OwnMention(target))
  {
    var m := OwnMention(target);
    assert m[0] == '<' && m[|m| - 1] == '>';
    assert LowerChar('<') in TAG_OPEN && LowerChar('>') in TAG_CLOSE;
  }

  // ---------------------------------------------------------------- the reply policy

  datatype Identity = BotPreferred | BotOnly | UserOnly

  datatype ChatConfig = ChatConfig(autoReply: bool, resourceDownload: bool, botJoined: bool, identity: Identity, allowUserFallback: bool)

  datatype PolicySource = ExplicitChat | UnknownGroup | Direct | Default

  datatype Repository = Repository(
    p2pAutoReply: bool,
    unknownGroupAutoReply: bool,
    default: ChatConfig,
    chat: Option<ChatConfig>,
    membership: Option<Membership.Fact>,
    now: int)

  datatype Resolved = Resolved(config: ChatConfig, source: PolicySource)

  /** `resolve_chat_policy`, with the observed membership taking precedence over the configured one. */
  function ResolveChat(repo: Repository, hasChatId: bool, chatType: ChatType): Resolved {
    var resolved :=
      if hasChatId && repo.chat.Some? then Resolved(repo.chat.value, ExplicitChat)
      else if chatType.PeerToPeer? then Resolved(repo.default.(autoReply := repo.p2pAutoReply), Direct)
      else if chatType.Group? then Resolved(repo.default.(autoReply := repo.unknownGroupAutoReply), UnknownGroup)
      else Resolved(repo.default, Default);
    if !chatType.Group? || !hasChatId then resolved
    else
      var status := Membership.EffectiveStatus(repo.membership, repo.now);
      resolved.(config := resolved.config.(botJoined :=
        if status == Some(Membership.Present) then true
        else if status == Some(Membership.Absent) then false
        else resolved.config.botJoined))
  }

  datatype Answerability = AutoReply | NeedsOwner | NoReply

  datatype GateReason =
    | Ok | OwnerNeeded | ForbiddenMentions | EmptyReply | DirectDisabled | NotMentioned | GroupDisabled | UnknownGroupDisabled
    | BotNotJoined | UnknownChatType

  /** `ReplyPolicyDecision`; `asBot` is the reply identity it names. */
  datatype Gate = Gate(allow: bool, reason: GateReason, asBot: bool, source: PolicySource)

  predicate Blank(c: Chars, s: string) {
    Strip(c, s) == []
  }

  function GateGroup(policy: Resolved, directMention: bool): Gate {
    if !directMention then Gate(false, NotMentioned, false, policy.source)
    else if !policy.config.autoReply
    then Gate(false, if policy.source == UnknownGroup then UnknownGroupDisabled else GroupDisabled, false, policy.source)
    else if !policy.config.identity.UserOnly? && policy.config.botJoined then Gate(true, Ok, true, policy.source)
    else if policy.config.identity.UserOnly? then Gate(true, Ok, false, policy.source)
    else if policy.config.identity.BotPreferred? && policy.config.allowUserFallback then Gate(true, Ok, false, policy.source)
    else Gate(false, BotNotJoined, true, policy.source)
  }

  /** `resolve_reply_policy` */
  function ResolveReply(c: Chars, repo: Repository, hasChatId: bool, chatType: ChatType, directMention: bool,
                        answerability: Answerability, proposed: string, composed: Composed): Gate {
    var policy := ResolveChat(repo, hasChatId, chatType);
    if !answerability.AutoReply? then Gate(false, OwnerNeeded, false, policy.source)
    else if composed.hadForbidden then Gate(false, ForbiddenMentions, false, policy.source)
    else if Blank(c, proposed) || Blank(c, composed.text) then Gate(false, EmptyReply, false, policy.source)
    else
      match chatType
      case PeerToPeer =>
        if repo.p2pAutoReply then Gate(true, Ok, false, policy.source) else Gate(false, DirectDisabled, false, policy.source)
      case Group => GateGroup(policy, directMention)
      case OtherChat => Gate(false, UnknownChatType, false, policy.source)
  }

  /** `can_download_resources` */
  function DownloadPolicy(repo: Repository, hasChatId: bool, chatType: ChatType): ResourceModel.Policy {
    var policy := ResolveChat(repo, hasChatId, chatType);
    if !policy.config.resourceDownload then ResourceModel.DisabledByChat
    else if !policy.config.botJoined then ResourceModel.BotAbsent
    else ResourceModel.Allowed
  }

  // ---------------------------------------------------------------- which setting decides

  /** The chat has a policy of its own. */
  predicate IsConfigured(repo: Repository, hasChatId: bool) {
    hasChatId && repo.chat.Some?
  }

  /** The settings of the chat, or else the default ones. */
  function Settings(repo: Repository, hasChatId: bool): ChatConfig {
    if IsConfigured(repo, hasChatId) then repo.chat.value else repo.default
  }

  /** The switch that lets a group be answered without asking. */
  predicate GroupIsAnswered(repo: Repository, hasChatId: bool) {
    if IsConfigured(repo, hasChatId) then repo.chat.value.autoReply else repo.unknownGroupAutoReply
  }

  /** An observation that is not yet due to be made again. */
  predicate Observed(repo: Repository, status: Membership.Status) {
    repo.membership.Some? && repo.membership.value.status == status
    && repo.membership.value.nextProbeAt.Some? && repo.now < repo.membership.value.nextProbeAt.value
  }

  /** The bot is taken to be in the chat: in a known group a fresh observation decides, else the setting. */
  predicate IsJoined(repo: Repository, hasChatId: bool, chatType: ChatType) {
    if chatType == Group && hasChatId && Observed(repo, Membership.Present) then true
    else if chatType == Group && hasChatId && Observed(repo, Membership.Absent) then false
    else Settings(repo, hasChatId).botJoined
  }

  lemma ResolvedSettings(repo: Repository, hasChatId: bool, chatType: ChatType)
    ensures var r, settings := ResolveChat(repo, hasChatId, chatType), Settings(repo, hasChatId);
            && r.config.botJoined == IsJoined(repo, hasChatId, chatType)
            && r.config.identity == settings.identity && r.config.allowUserFallback == settings.allowUserFallback
            && r.config.resourceDownload == settings.resourceDownload
            && (chatType == Group ==> r.config.autoReply == GroupIsAnswered(repo, hasChatId))
            && r.source == (if IsConfigured(repo, hasChatId) then ExplicitChat
                            else match chatType
                                 case PeerToPeer => Direct
                                 case Group => UnknownGroup
                                 case OtherChat => Default)
  {
    assert Membership.EffectiveStatus(repo.membership, repo.now) == Some(Membership.Present) <==> Observed(repo, Membership.Present);
    assert Membership.EffectiveStatus(repo.membership, repo.now) == Some(Membership.Absent) <==> Observed(repo, Membership.Absent);
  }

  /** A group's settings let somebody reply: the user always, the bot where it is, the user for it if that is allowed. */
  predicate SomebodyReplies(repo: Repository, hasChatId: bool) {
    var settings := Settings(repo, hasChatId);
    IsJoined(repo, hasChatId, Group) || settings.identity == UserOnly
    || (settings.identity == BotPreferred && settings.allowUserFallback)
  }

  /**
   Exactly when a reply is sent without asking, in terms of the stored settings, and as whom. A direct chat
   is governed by its global switch; a group by its own switch if it is configured, else by the one for
   unknown groups, and by its settings and the freshly observed membership. An observed absence keeps the
   bot's identity out of a group however the chat is configured.
   */
  lemma GateAllowsExactly(c: Chars, repo: Repository, hasChatId: bool, chatType: ChatType, directMention: bool,
                          answerability: Answerability, proposed: string, composed: Composed)
    ensures var gate := ResolveReply(c, repo, hasChatId, chatType, directMention, answerability, proposed, composed);
            && (gate.allow <==>
                  && answerability == AutoReply && !composed.hadForbidden && Strip(c, proposed) != [] && Strip(c, composed.text) != []
                  && (|| (chatType == PeerToPeer && repo.p2pAutoReply)
                      || (chatType == Group && directMention && GroupIsAnswered(repo, hasChatId) && SomebodyReplies(repo, hasChatId))))
            && (gate.allow ==>
                  && gate.reason == Ok
                  && (gate.asBot <==>
                        chatType == Group && IsJoined(repo, hasChatId, Group) && Settings(repo, hasChatId).identity != UserOnly))
            && (gate.allow && gate.asBot && hasChatId ==> !Observed(repo, Membership.Absent))
  {
    ResolvedSettings(repo, hasChatId, chatType);
  }

  /** Why a reply is refused, and which policy is named for the decision. */
  lemma RefusalExactly(c: Chars, repo: Repository, hasChatId: bool, chatType: ChatType, directMention: bool,
                       answerability: Answerability, proposed: string, composed: Composed)
    ensures var gate := ResolveReply(c, repo, hasChatId, chatType, directMention, answerability, proposed, composed);
            && gate.source == (if IsConfigured(repo, hasChatId) then ExplicitChat
                               else if chatType == PeerToPeer then Direct else if chatType == Group then UnknownGroup else Default)
            && (!gate.allow ==>
                  && (gate.asBot <==> gate.reason == BotNotJoined)
                  && gate.reason == if answerability != AutoReply then OwnerNeeded
                                    else if composed.hadForbidden then ForbiddenMentions
                                    else if Strip(c, proposed) == [] || Strip(c, composed.text) == [] then EmptyReply
                                    else if chatType == PeerToPeer then DirectDisabled
                                    else if chatType == OtherChat then UnknownChatType
                                    else if !directMention then NotMentioned
                                    else if GroupIsAnswered(repo, hasChatId) then BotNotJoined
                                    else if IsConfigured(repo, hasChatId) then GroupDisabled
                                    else UnknownGroupDisabled)
  {
    ResolvedSettings(repo, hasChatId, chatType);
  }

  /** Resources are downloaded exactly where the settings say so and the bot is taken to be. */
  lemma DownloadsExactly(repo: Repository, hasChatId: bool, chatType: ChatType)
    ensures var policy := DownloadPolicy(repo, hasChatId, chatType);
            && (policy == ResourceModel.DisabledByChat <==> !Settings(repo, hasChatId).resourceDownload)
            && (policy == ResourceModel.BotAbsent <==>
                  Settings(repo, hasChatId).resourceDownload && !IsJoined(repo, hasChatId, chatType))
  {
    ResolvedSettings(repo, hasChatId, chatType);
  }

  // ---------------------------------------------------------------- the end of a task session

  datatype Impact = NoImpact | LowImpact | HighImpact | UncertainImpact

  datatype Revision = Revision(impact: Impact, replyChanged: bool)

  datatype Session = Session(
    chatType: ChatType,
    hasChatId: bool,
    directMention: bool,
    answerability: Answerability,
    targetAllowed: bool,
    proposed: string,
    postprocessFailed: bool,
    processed: string,
    target: Option<Target>,
    source: Option<Target>,
    correction: Option<Revision>)

  datatype Outcome =
    | SendAction(text: string, asBot: bool)
    | Approval(text: string, approvable: bool)
    | OwnerNotice
    | WatchOnly
    | AuditedOnly

  /** `_can_directly_approve` */
  predicate CanApprove(c: Chars, proposed: string, composed: Composed) {
    !Blank(c, proposed) && !Blank(c, composed.text) && !composed.hadForbidden
  }

  /** `request_send_reply`: a reply that cannot be approved as it stands is stored without its text. */
  function RequestApproval(c: Chars, proposed: string, composed: Composed): Outcome {
    var approvable := CanApprove(c, proposed, composed);
    Approval(if approvable then composed.text else "", approvable)
  }

  function ConcludeCorrection(c: Chars, s: Session, revision: Revision, composed: Composed): Outcome {
    if revision.impact == NoImpact then AuditedOnly
    else if !revision.replyChanged || revision.impact == LowImpact then OwnerNotice
    else RequestApproval(c, s.proposed, composed)
  }

  /** The tail of `_run_task_session`. */
  function Conclude(c: Chars, owner: string, repo: Repository, s: Session): Outcome {
    if !s.targetAllowed then RequestApproval(c, s.proposed, Compose(c, owner, s.proposed, s.source, s.chatType))
    else if s.answerability == NoReply then (if s.correction.Some? then OwnerNotice else WatchOnly)
    else if s.postprocessFailed then RequestApproval(c, s.proposed, Compose(c, owner, s.proposed, s.target, s.chatType))
    else
      var composed := Compose(c, owner, s.processed, s.target, s.chatType);
      if s.correction.Some? then ConcludeCorrection(c, s, s.correction.value, composed)
      else
        var gate := ResolveReply(c, repo, s.hasChatId, s.chatType, s.directMention, s.answerability, s.processed, composed);
        if gate.allow then SendAction(composed.text, gate.asBot) else RequestApproval(c, s.processed, composed)
  }

  /** What the composed text is when the flag is down: own mention, if any, then the tidied reply. */
  ghost predicate TidiedReply(c: Chars, owner: string, proposed: string, target: Option<Target>, chatType: ChatType, text: string) {
    var body := Tidy(c, proposed);
    !Forbidden(c, body)
    && text == if chatType == Group && target.Some? && target.value.senderId != "" && target.value.senderId != owner
                    && !target.value.fromBot
               then
                 var t := target.value;
                 WithMention("<at user_id=\"" + t.senderId + "\">"
                             + EscapeDisplay(if t.senderName != "" then t.senderName else t.senderId) + "</at>", body)
               else body
  }

  lemma UnflaggedReplyIsTidied(c: Chars, owner: string, proposed: string, target: Option<Target>, chatType: ChatType)
    requires Sane(c)
    ensures var composed := Compose(c, owner, proposed, target, chatType);
            !composed.hadForbidden ==> TidiedReply(c, owner, proposed, target, chatType, composed.text)
  {
    if !HadForbidden(c, proposed) {
      CleanReplyIsOnlyTidied(c, proposed);
      if IsMentioned(owner, chatType, target) {
        StripStrips(c, JoinStripped(c, Lines(NormalizeBreaks(proposed))));
        OwnMentionIsStripped(c, target.value);
        MentionLeads(c, OwnMention(target.value), Tidy(c, proposed));
      }
    }
  }

  lemma SentReply(c: Chars, owner: string, repo: Repository, s: Session)
    requires Conclude(c, owner, repo, s).SendAction?
    ensures var composed := Compose(c, owner, s.processed, s.target, s.chatType);
            !composed.hadForbidden && Conclude(c, owner, repo, s).text == composed.text
    ensures s.answerability == AutoReply && s.targetAllowed && s.correction.None? && !s.postprocessFailed
  {
  }

  /**
   Automatic replies are clean: the text of every reply action created without approval is the
   processed reply with only its whitespace tidied, behind the composer's own mention if there is one,
   and holds no other mention. It answers an allowed target and is no correction.
   */
  lemma AutomaticRepliesAreClean(c: Chars, owner: string, repo: Repository, s: Session)
    requires Sane(c)
    ensures var out := Conclude(c, owner, repo, s);
            out.SendAction? ==>
              && TidiedReply(c, owner, s.processed, s.target, s.chatType, out.text)
              && s.answerability == AutoReply && s.targetAllowed && s.correction.None? && !s.postprocessFailed
  {
    if Conclude(c, owner, repo, s).SendAction? {
      SentReply(c, owner, repo, s);
      UnflaggedReplyIsTidied(c, owner, s.processed, s.target, s.chatType);
    }
  }

  /** Which reply an approval request of the session is about. */
  function ReplyUnderApproval(s: Session): string {
    if !s.targetAllowed || s.postprocessFailed then s.proposed else s.processed
  }

  function TargetUnderApproval(s: Session): Option<Target> {
    if s.targetAllowed then s.target else s.source
  }

  lemma ApprovalRequest(c: Chars, owner: string, repo: Repository, s: Session)
    requires Conclude(c, owner, repo, s).Approval?
    ensures var composed := Compose(c, owner, ReplyUnderApproval(s), TargetUnderApproval(s), s.chatType);
            Conclude(c, owner, repo, s) == RequestApproval(c, s.proposed, composed)
            || Conclude(c, owner, repo, s) == RequestApproval(c, s.processed, composed)
  {
  }

  lemma RequestedTextIsClean(c: Chars, owner: string, checked: string, reply: string, target: Option<Target>, chatType: ChatType)
    requires Sane(c)
    ensures var out := RequestApproval(c, checked, Compose(c, owner, reply, target, chatType));
            if out.approvable then TidiedReply(c, owner, reply, target, chatType, out.text) else out.text == ""
  {
    UnflaggedReplyIsTidied(c, owner, reply, target, chatType);
  }

  /** The text an owner can approve as it stands is as clean; no other is stored as the text to send. */
  lemma ApprovableTextsAreClean(c: Chars, owner: string, repo: Repository, s: Session)
    requires Sane(c)
    ensures var out := Conclude(c, owner, repo, s);
            out.Approval? ==>
              if out.approvable then TidiedReply(c, owner, ReplyUnderApproval(s), TargetUnderApproval(s), s.chatType, out.text)
              else out.text == ""
  {
    if Conclude(c, owner, repo, s).Approval? {
      ApprovalRequest(c, owner, repo, s);
      RequestedTextIsClean(c, owner, s.proposed, ReplyUnderApproval(s), TargetUnderApproval(s), s.chatType);
      RequestedTextIsClean(c, owner, s.processed, ReplyUnderApproval(s), TargetUnderApproval(s), s.chatType);
    }
  }

  // ---------------------------------------------------------------- which outcome a session has

  /** A new reply that may go out: no correction, an allowed target, something to say, nothing failed. */
  predicate IsPlainReply(s: Session) {
    s.targetAllowed && s.answerability != NoReply && !s.postprocessFailed && s.correction.None?
  }

  /** A correction of a reply that was sent, ready to be judged. */
  predicate IsCorrection(s: Session) {
    s.targetAllowed && s.answerability != NoReply && !s.postprocessFailed && s.correction.Some?
  }

  /** The decision of the reply policy about the session's reply. */
  function GateOf(c: Chars, owner: string, repo: Repository, s: Session): Gate {
    ResolveReply(c, repo, s.hasChatId, s.chatType, s.directMention, s.answerability, s.processed,
                 Compose(c, owner, s.processed, s.target, s.chatType))
  }

  /**
   Which outcome a session has. A reply is sent exactly if it is a plain one that the policy allows; a
   correction is only audited if it has no impact, reported to the owner if it changes no reply or matters
   little; a session with nothing to say ends silently, or with a report if it reviewed a sent reply.
   Everything else asks the owner.
   */
  lemma SessionEndsExactly(c: Chars, owner: string, repo: Repository, s: Session)
    ensures var out := Conclude(c, owner, repo, s);
            var reported := s.correction.Some? && (!s.correction.value.replyChanged || s.correction.value.impact == LowImpact);
            && (out.SendAction? <==> IsPlainReply(s) && GateOf(c, owner, repo, s).allow)
            && (out.SendAction? ==> out.asBot == GateOf(c, owner, repo, s).asBot)
            && (out == AuditedOnly <==> IsCorrection(s) && s.correction.value.impact == NoImpact)
            && (out == OwnerNotice <==>
                  || (s.targetAllowed && s.answerability == NoReply && s.correction.Some?)
                  || (IsCorrection(s) && s.correction.value.impact != NoImpact && reported))
            && (out == WatchOnly <==> s.targetAllowed && s.answerability == NoReply && s.correction.None?)
            && (out.Approval? <==>
                  || !s.targetAllowed
                  || (s.answerability != NoReply && s.postprocessFailed)
                  || (IsPlainReply(s) && !GateOf(c, owner, repo, s).allow)
                  || (IsCorrection(s) && s.correction.value.impact != NoImpact && !reported))
  {
  }

  /** Exactly when the owner can approve the request as it stands: nothing blank, and no forbidden mention proposed. */
  lemma ApprovableExactly(c: Chars, owner: string, repo: Repository, s: Session)
    requires Conclude(c, owner, repo, s).Approval?
    ensures var checked := if s.targetAllowed && !s.postprocessFailed && s.correction.None? then s.processed else s.proposed;
            var composed := Compose(c, owner, ReplyUnderApproval(s), TargetUnderApproval(s), s.chatType);
            Conclude(c, owner, repo, s).approvable <==>
              Strip(c, checked) != [] && Strip(c, composed.text) != [] && !Forbidden(c, ReplyUnderApproval(s))
  {
    FlagMeansForbidden(c, ReplyUnderApproval(s));
  }

  // ---------------------------------------------------------------- the service

  /** The composer and the queue of what task sessions concluded. */
  class TaskSessions {
    const chars: Chars
    const ownerOpenId: string
    var outcomes: seq<Outcome>

    constructor (chars: Chars, ownerOpenId: string)
      ensures this.chars == chars && this.ownerOpenId == ownerOpenId && outcomes == []
    {
      this.chars, this.ownerOpenId, outcomes := chars, ownerOpenId, [];
    }

    /** `compose`, rewriting one local step by step. */
    method ComposeReply(proposed: string, target: Option<Target>, chatType: ChatType) returns (r: Composed)
      ensures r == Compose(chars, ownerOpenId, proposed, target, chatType)
    {
      var hadForbidden := HasSpan(chars, proposed) || Forbidden(chars, proposed);
      var cleaned := NormalizeBreaks(proposed);
      cleaned := RemoveSpans(chars, cleaned);
      cleaned := RemoveMentions(chars, cleaned);
      cleaned := Strip(chars, JoinStripped(chars, Lines(cleaned)));
      if IsMentioned(ownerOpenId, chatType, target) {
        cleaned := Strip(chars, OwnMention(target.value) + " " + cleaned);
      }
      r := Composed(cleaned, hadForbidden);
    }

    method Record(outcome: Outcome)
      modifies this
      ensures outcomes == old(outcomes) + [outcome]
    {
      outcomes := outcomes + [outcome];
    }

    /** The tail of `_run_task_session`: one outcome is recorded. */
    method Finish(repo: Repository, s: Session)
      modifies this
      ensures outcomes == old(outcomes) + [Conclude(chars, ownerOpenId, repo, s)]
    {
      if !s.targetAllowed {
        var fallback := ComposeReply(s.proposed, s.source, s.chatType);
        Record(RequestApproval(chars, s.proposed, fallback));
        return;
      }
      if s.answerability == NoReply {
        Record(if s.correction.Some? then OwnerNotice else WatchOnly);
        return;
      }
      if s.postprocessFailed {
        var original := ComposeReply(s.proposed, s.target, s.chatType);
        Record(RequestApproval(chars, s.proposed, original));
        return;
      }
      var composed := ComposeReply(s.processed, s.target, s.chatType);
      if s.correction.Some? {
        Record(ConcludeCorrection(chars, s, s.correction.value, composed));
        return;
      }
      var gate := ResolveReply(chars, repo, s.hasChatId, s.chatType, s.directMention, s.answerability, s.processed, composed);
      if gate.allow {
        Record(SendAction(composed.text, gate.asBot));
      } else {
        Record(RequestApproval(chars, s.processed, composed));
      }
    }
  }
}
