/**
 * The tool entry point `execute_python_code` (main.py:377-603): the gate,
 * the run, the chat reply on success and the history record every run
 * leaves.  Sending files and messages, the image-URL listing and the
 * error analysis by a second model are outside the model; what the tool
 * returns is modelled as the `Reply` below.
 */
module Plugin {
  import opened Text
  import opened Wrappers
  import Config
  import opened Policy
  import opened Artifacts
  import opened Worker
  import opened HistoryQuery
  import opened History

  /** How a call of the tool ends. */
  datatype Reply =
    | Refused(text: string)
    | Ran(outcome: Outcome, chatMessage: string)
    | InternalError(text: string)

  /** Python truthiness of `result["output"] and result["output"].strip()`. */
  predicate HasText(output: Option<string>) {
    output.Some? && Strip(output.value) != ""
  }

  /** The chat message of a successful run: the stripped output, truncated (main.py:420-428). */
  function SuccessMessage(output: Option<string>, maxLength: int): string
  {
    "✅ 任务完成！" +
    (if HasText(output) then "\n📤 执行结果：\n```\n" + Truncate(Strip(output.value), maxLength) + "\n```" else "")
  }

  /**
   * The message of a failed run: the error, then any output produced
   * before it (main.py:534-537).
   */
  function FailureMessage(error: string, output: Option<string>): string
  {
    "❌ 代码执行失败！\n错误信息：\n```\n" + error + "\n```" +
    (if output.Some? && output.value != "" then "\n\n出错前输出：\n```\n" + output.value + "\n```" else "") +
    "\n💡 建议：请检查代码逻辑和语法，修正后可重新尝试执行。"
  }

  /** The reply to an exception raised inside the plugin (main.py:575). */
  function InternalErrorText(message: string): string {
    "🔥 插件内部错误：" + message + "\n💡 建议：请检查插件配置或环境设置。"
  }

  /** The chat message shows at most `maxLength` characters of output, marked when cut. */
  lemma SuccessMessageBound(output: Option<string>, maxLength: nat)
    ensures |SuccessMessage(output, maxLength)| <= |"✅ 任务完成！\n📤 执行结果：\n```\n"| + maxLength + |TruncationMarker| + 4
    ensures HasText(output) && |Strip(output.value)| <= maxLength ==>
      SuccessMessage(output, maxLength) == "✅ 任务完成！" + "\n📤 执行结果：\n```\n" + Strip(output.value) + "\n```"
  {
    if HasText(output) {
      TruncateWithinLimit(Strip(output.value), maxLength);
    }
  }

  /** The plugin object: its settings and its history store. */
  class CodeExecutor {
    const settings: Config.Settings
    const db: HistoryDB

    constructor (settings: Config.Settings, db: HistoryDB)
      ensures this.settings == settings && this.db == db
    {
      this.settings := settings;
      this.db := db;
    }

    /**
     * One call of the tool.  The environment of the run is given: the
     * output directory before it, whether it timed out, what executing the
     * code did, the traceback of a failing directory listing, the message
     * of an exception escaping the run, the elapsed time and the timestamp
     * the history row receives.
     */
    method ExecutePythonCode(role: string, code: string, description: Option<string>,
                             senderId: string, senderName: string, imageUrls: seq<string>,
                             catalog: seq<CatalogEntry>, importable: set<string>, fsBefore: FileSystem,
                             timedOut: bool, effect: ExecEffect, listingTrace: string, escapedError: string,
                             executionTime: real, createdAt: string)
      returns (reply: Reply)
      requires db.Valid()
      modifies db
      ensures db.Valid()
      // Refused: nothing runs and nothing is recorded.
      ensures reply.Refused? <==>
        !Permitted(settings, role) ||
        (Screened(settings, role) && MatchedTerms(code, settings.restrictedKeywords, settings.restrictedLibraries) != {})
      ensures reply.Refused? ==> db.rows == old(db.rows) && db.nextId == old(db.nextId)
      ensures reply.Refused? && !Permitted(settings, role) ==> reply.text == PermissionDeniedText
      ensures reply.Refused? && Permitted(settings, role) ==>
        exists terms :: reply.text == BlockedText(terms) && StrictlySorted(terms) &&
          forall t :: t in terms <==> t in MatchedTerms(code, settings.restrictedKeywords, settings.restrictedLibraries)
      // Otherwise exactly one record is added, under the next id.
      ensures !reply.Refused? ==>
        db.nextId == old(db.nextId) + 1 && |db.rows| == |old(db.rows)| + 1 && db.rows[..|old(db.rows)|] == old(db.rows)
      ensures !reply.Refused? ==>
        var row := db.rows[|old(db.rows)|];
        row.id == old(db.nextId) && row.senderId == senderId && row.senderName == senderName &&
        row.code == code && row.description == description && row.createdAt == createdAt &&
        row.executionTime == Some(executionTime)
      ensures reply.Ran? ==>
        var row := db.rows[|old(db.rows)|];
        WellShaped(reply.outcome) && row.success == reply.outcome.success && row.output == reply.outcome.output &&
        row.errorMsg == reply.outcome.error &&
        row.filePaths == Some(JsonPaths.StorePaths(Some(reply.outcome.filePaths)))
      ensures reply.Ran? && reply.outcome.success ==> reply.chatMessage == SuccessMessage(reply.outcome.output, settings.maxOutputLength)
      ensures reply.Ran? && !reply.outcome.success ==>
        reply.chatMessage == FailureMessage(reply.outcome.error.value, reply.outcome.output)
      ensures reply.Ran? && timedOut ==> reply.outcome == Outcome(false, None, Some(TimeoutText(settings.timeoutSeconds)), [])
      ensures reply.Ran? && !timedOut ==> RunSpec(settings.outputDir, fsBefore, effect, listingTrace, Returned(reply.outcome))
      ensures reply.InternalError? <==>
        !reply.Refused? && !timedOut && ListNames(fsBefore, settings.outputDir).None?
      ensures reply.InternalError? ==>
        reply.text == InternalErrorText(escapedError) &&
        db.rows[|old(db.rows)|].errorMsg == Some("插件内部错误: " + escapedError) &&
        !db.rows[|old(db.rows)|].success
    {
      var decision := Gate(settings, role, code);
      match decision {
        case PermissionDenied =>
          return Refused(PermissionDeniedText);
        case Blocked(terms) =>
          reply := Refused(BlockedText(terms));
          assert reply.text == BlockedText(terms);
          return;
        case Cleared =>
      }
      var isAdmin := role == "admin";
      var result := ExecuteCodeSafely(settings.timeoutSeconds, timedOut, settings.outputDir, Some(imageUrls),
                                      catalog, isAdmin, settings.restrictedLibraries, importable,
                                      fsBefore, effect, listingTrace);
      if result.SnapshotFailed? {
        var id := db.Add(senderId, senderName, code, description, false, None,
                         Some("插件内部错误: " + escapedError), Some([]), Some(executionTime), createdAt);
        return InternalError(InternalErrorText(escapedError));
      }
      var outcome := result.outcome;
      if outcome.success {
        var message := SuccessMessage(outcome.output, settings.maxOutputLength);
        var id := db.Add(senderId, senderName, code, description, true, outcome.output,
                         None, Some(outcome.filePaths), Some(executionTime), createdAt);
        reply := Ran(outcome, message);
      } else {
        var id := db.Add(senderId, senderName, code, description, false, outcome.output,
                         outcome.error, Some([]), Some(executionTime), createdAt);
        reply := Ran(outcome, FailureMessage(outcome.error.value, outcome.output));
      }
    }
  }
}
