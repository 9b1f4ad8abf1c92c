/**
 * The overwrite questions (`check_overwrite`, `check_overwrite_dir`): when
 * the manifest or the directory already exists, ask until the reply is one
 * of `Y y N n`. The replies `raw_input` would read are a sequence given in
 * advance; running out of them is the `EOFError` `raw_input` raises.
 */
module Prompt {
  import opened Common
  import opened FileTree

  /** The replies the loop accepts. */
  predicate IsYesNo(s: string) {
    s == "Y" || s == "y" || s == "N" || s == "n"
  }

  /** How the loop ends: with the accepted reply and the number of replies
    * read, or with the input exhausted. */
  datatype Reply = Accepted(answer: string, consumed: nat) | EndOfInput

  function FirstYesNo(inputs: seq<string>): (i: nat)
    ensures i <= |inputs|
    ensures i < |inputs| ==> IsYesNo(inputs[i])
    ensures forall k :: 0 <= k < i ==> !IsYesNo(inputs[k])
  {
    if inputs == [] then 0
    else if IsYesNo(inputs[0]) then 0
    else 1 + FirstYesNo(inputs[1..])
  }

  /** The reply the loop settles on: the first acceptable one, every reply
    * before it rejected; input runs out exactly when none is acceptable. */
  function ReplyOf(inputs: seq<string>): (r: Reply)
    ensures r.Accepted? ==>
      0 < r.consumed <= |inputs| && r.answer == inputs[r.consumed - 1] && IsYesNo(r.answer)
      && forall k :: 0 <= k < r.consumed - 1 ==> !IsYesNo(inputs[k])
    ensures r.EndOfInput? <==> forall k :: 0 <= k < |inputs| ==> !IsYesNo(inputs[k])
  {
    var i := FirstYesNo(inputs);
    if i < |inputs| then Accepted(inputs[i], i + 1) else EndOfInput
  }

  /** Lines 286-290 and 318-322: start from `''`, read until the reply is
    * acceptable. */
  method PromptYesNo(inputs: seq<string>) returns (reply: Reply)
    ensures reply == ReplyOf(inputs)
  {
    var answer := "";
    var read := 0;
    while !IsYesNo(answer)
      invariant read <= |inputs|
      invariant read == 0 ==> answer == ""
      invariant read > 0 ==> answer == inputs[read - 1]
      invariant forall k :: 0 <= k < read - 1 ==> !IsYesNo(inputs[k])
      invariant !IsYesNo(answer) ==> forall k :: 0 <= k < read ==> !IsYesNo(inputs[k])
      decreases |inputs| - read
    {
      if read == |inputs| {
        return EndOfInput;
      }
      answer := inputs[read];
      read := read + 1;
    }
    assert FirstYesNo(inputs) == read - 1;
    reply := Accepted(answer, read);
  }

  /** `check_overwrite(file2check)`: `None` unless a regular file exists at
    * the path. */
  method CheckOverwrite(fs: Fs, file2check: string, inputs: seq<string>) returns (r: Option<Reply>)
    ensures file2check !in fs.files ==> r == None
    ensures file2check in fs.files ==> r == Some(ReplyOf(inputs))
  {
    r := None;
    if file2check in fs.files {
      var reply := PromptYesNo(inputs);
      r := Some(reply);
    }
  }

  /** `check_overwrite_dir(dir2check)`: `None` unless a directory exists at
    * the path. */
  method CheckOverwriteDir(fs: Fs, dir2check: string, inputs: seq<string>) returns (r: Option<Reply>)
    ensures dir2check !in fs.dirs ==> r == None
    ensures dir2check in fs.dirs ==> r == Some(ReplyOf(inputs))
  {
    r := None;
    if dir2check in fs.dirs {
      var reply := PromptYesNo(inputs);
      r := Some(reply);
    }
  }

  /** Once an acceptable reply is among the inputs, the loop stops there,
    * and replies after it are never read. */
  lemma PromptStopsAtFirstAcceptable(inputs: seq<string>, i: nat, more: seq<string>)
    requires i < |inputs| && IsYesNo(inputs[i])
    requires forall k :: 0 <= k < i ==> !IsYesNo(inputs[k])
    ensures ReplyOf(inputs) == Accepted(inputs[i], i + 1)
    ensures ReplyOf(inputs[..i + 1] + more) == ReplyOf(inputs)
  {
    var longer := inputs[..i + 1] + more;
    assert forall k :: 0 <= k <= i ==> longer[k] == inputs[k];
  }
}
