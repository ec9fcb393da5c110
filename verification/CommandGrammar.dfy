/** The bytes of a command, after the section "Arrays" of the Redis serialization protocol specification. */
module CommandGrammar {
  import opened Bytes
  import opened Decimal

  /** One argument: `$`, its length in decimal, CR LF, the argument, CR LF. */
  ghost predicate IsChunk(s: bytes, arg: bytes) {
    exists num :: IsNumeral(num, |arg|) && s == [36] + num + [13, 10] + arg + [13, 10]
  }

  ghost predicate AreChunks(s: bytes, args: seq<bytes>) {
    if args == [] then s == []
    else exists k: nat :: k <= |s| && IsChunk(s[..k], args[0]) && AreChunks(s[k..], args[1..])
  }

  /** `*`, the number of arguments in decimal, CR LF, and the arguments one after the other. */
  ghost predicate IsCommand(s: bytes, args: seq<bytes>) {
    exists num, chunks :: IsNumeral(num, |args|) && AreChunks(chunks, args) && s == [42] + num + [13, 10] + chunks
  }

  /** The arguments of an argument vector: of the given lengths, or each up to its first zero byte. */
  ghost predicate Supplied(argv: seq<bytes>, argvlen: Option<seq<nat>>, args: seq<bytes>)
    requires argvlen != None ==> |argvlen.value| == |argv|
  {
    && |args| == |argv|
    && forall j :: 0 <= j < |argv| ==>
         && args[j] <= argv[j]
         && if argvlen != None then |args[j]| == argvlen.value[j]
            else 0 !in args[j] && (args[j] == argv[j] || argv[j][|args[j]|] == 0)
  }
}
