/** The part of the Hunyuan detector object that streams the arguments of the open call. */
module HunyuanDetector {
  import opened Strings
  import opened HoldBack
  import opened Dictionaries
  import opened JsonStrings
  import opened ArgTags
  import opened HunyuanArgs

  datatype ToolCallItem = ToolCallItem(toolIndex: int, name: Option<string>, parameters: string)

  datatype Record = Record(name: string, arguments: Entries<string>)

  const NO_RECORD := Record("", [])

  class Detector {
    /** For each function, what its schema says about its arguments. */
    const tools: string -> Tools
    var buffer: string
    var streamingToolName: Option<string>
    var completedArgs: Entries<string>
    var streamedJsonLen: nat
    var currentToolId: int
    var streamedArgsForTool: seq<string>
    var prevToolCallArr: seq<Record>

    constructor (tools: string -> Tools)
      ensures this.tools == tools && buffer == "" && streamingToolName == None && Current() == NOTHING
      ensures currentToolId == -1 && streamedArgsForTool == [] && prevToolCallArr == []
    {
      this.tools := tools;
      buffer, streamingToolName, completedArgs, streamedJsonLen := "", None, [], 0;
      currentToolId, streamedArgsForTool, prevToolCallArr := -1, [], [];
    }

    /** The open call that the fields hold. */
    ghost function Current(): Open
      reads this`buffer, this`completedArgs, this`streamedJsonLen
    {
      Open(buffer, completedArgs, streamedJsonLen)
    }

    method ResetStreamingToolState()
      modifies this`streamingToolName, this`completedArgs, this`streamedJsonLen
      ensures streamingToolName == None && completedArgs == [] && streamedJsonLen == 0
    {
      streamingToolName, completedArgs, streamedJsonLen := None, [], 0;
    }

    /** Take over the closed pairs of the text that are new, and say what stands behind the last one. */
    method AbsorbPairs(argsText: string, schema: Tools) returns (tail: string)
      modifies this`completedArgs
      ensures completedArgs == Absorb(schema, old(completedArgs), Pairs(argsText)) && tail == Tail(argsText)
    {
      hide FirstMatch, Put, HasKey, Strip, ValueJson;
      tail := argsText;
      while FirstMatch(tail).Some?
        invariant Absorb(schema, completedArgs, Pairs(tail)) == Absorb(schema, old(completedArgs), Pairs(argsText))
        invariant Tail(tail) == Tail(argsText)
        decreases |tail|
      {
        var (rawKey, value, rest) := FirstMatch(tail).value;
        var key := Strip(rawKey);
        assert Pairs(tail) == [(rawKey, value)] + Pairs(rest);
        if !HasKey(completedArgs, key) {
          completedArgs := Put(completedArgs, key, ValueJson(schema, key, value));
        }
        tail := rest;
      }
    }

    /** Emit what the arguments' JSON text has more than before. */
    /** The JSON text of the complete arguments and of what is there of the next one. */
    method Snapshot(partial: Option<(string, string)>) returns (snapshot: string)
      ensures snapshot == OpenSnapshot(completedArgs, partial)
    {
      hide OpenText, ShortestFrom, Escape, Quoted;
      snapshot := OpenText(Quoted, completedArgs);
      if partial.Some? {
        var hold := EndsWithPartialToken(partial.value.1, VALUE_END);
        var safeValue := partial.value.1[..|partial.value.1| - hold];
        snapshot := snapshot + ((if completedArgs == [] then "" else ", ")
                                + (Quoted(partial.value.0) + ": \"" + Escape(safeValue)));
      }
    }

    method StreamArgs() returns (calls: seq<ToolCallItem>)
      requires streamingToolName.Some? && 0 <= currentToolId < |streamedArgsForTool|
      requires |prevToolCallArr| <= currentToolId
      modifies this
      ensures currentToolId == old(currentToolId) && |streamedArgsForTool| == |old(streamedArgsForTool)|
      ensures forall i :: 0 <= i < |streamedArgsForTool| && i != currentToolId ==>
                streamedArgsForTool[i] == old(streamedArgsForTool[i])
      ensures var name := old(streamingToolName.value);
              match HunyuanArgs.StreamArgs(tools(name), old(Current()))
              case Waiting(next, delta) =>
                && Current() == next && streamingToolName == Some(name) && prevToolCallArr == old(prevToolCallArr)
                && calls == Sent(currentToolId, delta)
                && streamedArgsForTool[currentToolId] == old(streamedArgsForTool[currentToolId]) + delta
              case Finished(rest, completed, delta) =>
                && Current() == NOTHING.(buffer := rest) && streamingToolName == None
                && |prevToolCallArr| == currentToolId + 1 && old(prevToolCallArr) <= prevToolCallArr
                && prevToolCallArr[currentToolId] == Record(name, completed)
                && calls == Sent(currentToolId, delta)
                && streamedArgsForTool[currentToolId] == old(streamedArgsForTool[currentToolId]) + delta
    {
      hide Pairs, Tail, Absorb, Partial, OpenText, IndexOf, ShortestFrom, Escape, Quoted;
      var schema := tools(streamingToolName.value);
      var endIdx := IndexOf(CALL_END, buffer);
      var isComplete := endIdx != -1;
      var argsText := if isComplete then buffer[..endIdx] else buffer;
      var tail := AbsorbPairs(argsText, schema);
      var partial := Partial(schema, tail);
      var delta := "";
      if isComplete {
        var finalJson := ObjectText(Quoted, completedArgs);
        if streamedJsonLen < |finalJson| {
          delta := finalJson[streamedJsonLen..];
        }
        RecordCall(Record(streamingToolName.value, completedArgs));
        buffer := buffer[endIdx..][|CALL_END|..];
        ResetStreamingToolState();
      } else if completedArgs == [] && partial.None? {
        return [];
      } else {
        var snapshot := Snapshot(partial);
        var end := |snapshot|;
        if end > streamedJsonLen {
          delta := snapshot[streamedJsonLen..end];
          assert delta == snapshot[streamedJsonLen..] && delta != "";
          streamedJsonLen := end;
        }
      }
      calls := [];
      if delta != "" {
        streamedArgsForTool := streamedArgsForTool[currentToolId := streamedArgsForTool[currentToolId] + delta];
        calls := [ToolCallItem(currentToolId, None, delta)];
      }
    }

    method RecordCall(record: Record)
      requires 0 <= currentToolId && |prevToolCallArr| <= currentToolId
      modifies this`prevToolCallArr
      ensures |prevToolCallArr| == currentToolId + 1 && old(prevToolCallArr) <= prevToolCallArr
      ensures prevToolCallArr[currentToolId] == record
    {
      while |prevToolCallArr| <= currentToolId
        invariant old(|prevToolCallArr|) <= |prevToolCallArr| <= currentToolId + 1
        invariant old(prevToolCallArr) <= prevToolCallArr
        decreases currentToolId + 1 - |prevToolCallArr|
      {
        prevToolCallArr := prevToolCallArr + [NO_RECORD];
      }
      prevToolCallArr := prevToolCallArr[currentToolId := record];
    }
  }

  /** The items that send a fragment of call `i`, if there is one. */
  function Sent(i: int, delta: string): (items: seq<ToolCallItem>)
    ensures delta == "" ==> items == []
  {
    if delta == "" then [] else [ToolCallItem(i, None, delta)]
  }
}
