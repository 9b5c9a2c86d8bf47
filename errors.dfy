/**
 * The errors the services return: the file sentinels wrapped in a path error,
 * the user sentinels wrapped in a user error, the argument check of
 * services/utils.go, and every other error (store, blob, cache, id generator)
 * as an opaque failure carrying its text.
 */
module Errors {

  datatype FileSentinel =
    | ParentNotADirectory
    | FileNotFound
    | FileAlreadyExists
    | DirectoryNotFound
    | FileShareInvalid
    | FileIsMissing
    | CannotDownloadDirectory

  datatype UserSentinel =
    | UsernameAlreadyExists
    | EmailAlreadyExists
    | IncorrectUnameOrPWD
    | UserFieldIsInvalid
    | EmailNotFound
    | UserNotFound
    | VerificationCodeIsInvalid

  datatype Error =
    | PathError(op: string, path: string, cause: FileSentinel)
    | UserError(op: string, reason: UserSentinel)
    | InvalidArgument(service: string, arg: string, caller: string)
    | Failure(text: string)

  function FileSentinelText(s: FileSentinel): string {
    match s
    case ParentNotADirectory => "父路径不是一个文件夹"
    case FileNotFound => "文件未找到"
    case FileAlreadyExists => "文件已经存在"
    case DirectoryNotFound => "文件夹不存在"
    case FileShareInvalid => "文件分享码无效"
    case FileIsMissing => "文件丢失"
    case CannotDownloadDirectory => "文件夹不支持下载"
  }

  function UserSentinelText(s: UserSentinel): string {
    match s
    case UsernameAlreadyExists => "用户名已经存在"
    case EmailAlreadyExists => "邮箱已经存在"
    case IncorrectUnameOrPWD => "用户名或密码错误"
    case UserFieldIsInvalid => "用户字段无效"
    case EmailNotFound => "邮箱不存在"
    case UserNotFound => "用户不存在"
    case VerificationCodeIsInvalid => "验证码无效"
  }

  /** The sentinels are distinct errors with distinct texts. */
  lemma SentinelTextsDistinct()
    ensures forall a: FileSentinel, b: FileSentinel :: FileSentinelText(a) == FileSentinelText(b) ==> a == b
    ensures forall a: UserSentinel, b: UserSentinel :: UserSentinelText(a) == UserSentinelText(b) ==> a == b
  {
  }

  /** `Error()` of each kind of error. */
  function Message(e: Error): string {
    match e
    case PathError(op, path, cause) => "[" + op + "] (" + path + ") " + FileSentinelText(cause)
    case UserError(op, reason) => "[" + op + "]" + UserSentinelText(reason)
    case InvalidArgument(service, arg, caller) => service + ": invalid argument '" + arg + "' in " + caller
    case Failure(text) => text
  }

  /**
   * A path error's message identifies its cause: two path errors with the same
   * operation and path but different sentinels never print the same.
   */
  lemma PathMessageDeterminesCause(op: string, path: string, a: FileSentinel, b: FileSentinel)
    requires Message(PathError(op, path, a)) == Message(PathError(op, path, b))
    ensures a == b
  {
    var prefix := "[" + op + "] (" + path + ") ";
    var ma, mb := Message(PathError(op, path, a)), Message(PathError(op, path, b));
    assert ma == prefix + FileSentinelText(a);
    assert mb == prefix + FileSentinelText(b);
    assert FileSentinelText(a) == ma[|prefix|..];
    assert FileSentinelText(b) == mb[|prefix|..];
    SentinelTextsDistinct();
  }

  /** Likewise a user error's message identifies its reason. */
  lemma UserMessageDeterminesReason(op: string, a: UserSentinel, b: UserSentinel)
    requires Message(UserError(op, a)) == Message(UserError(op, b))
    ensures a == b
  {
    var prefix := "[" + op + "]";
    var ma, mb := Message(UserError(op, a)), Message(UserError(op, b));
    assert ma == prefix + UserSentinelText(a);
    assert mb == prefix + UserSentinelText(b);
    assert UserSentinelText(a) == ma[|prefix|..];
    assert UserSentinelText(b) == mb[|prefix|..];
    SentinelTextsDistinct();
  }
}
