/** The Runtime functions as the compiler and as the machine know them. */
module RuntimeApi {
  import opened Prelude
  import opened Bytes
  import opened Values
  import opened Syntax

  /** `result == None`: the function yields nothing usable as a value. */
  datatype Signature = Signature(params: seq<Type>, result: Option<Type>)

  function SignatureOf(name: Text): Option<Signature> {
    if name == Ascii("runtime.log") then Some(Signature([TString], None))
    else if name == Ascii("runtime.ipc_listen") then Some(Signature([], Some(TInt)))
    else if name == Ascii("runtime.ipc_receive") then Some(Signature([], Some(TString)))
    else if name == Ascii("runtime.ipc_send") then Some(Signature([TString], Some(TInt)))
    else None
  }

  /** The dispatch table the loader consults. */
  predicate HasFunction(name: Text, argCount: int) {
    || (name == Ascii("runtime.log") && argCount == 1)
    || (name == Ascii("camera.detectMarkers") && argCount == 0)
    || (name == Ascii("window.create") && argCount == 3)
    || (name == Ascii("window.show") && argCount == 0)
    || (name == Ascii("window.close") && argCount == 0)
    || (name == Ascii("window.quit") && argCount == 0)
    || (name == Ascii("runtime.ipc_listen") && argCount == 0)
    || (name == Ascii("runtime.ipc_receive") && argCount == 0)
    || (name == Ascii("runtime.ipc_send") && argCount == 1)
  }

  /** Everything the compiler lets a program call is in the dispatch table, with the same arity. */
  lemma CompilerTableIsImplemented(name: Text)
    requires SignatureOf(name).Some?
    ensures HasFunction(name, |SignatureOf(name).value.params|)
    ensures SignatureOf(name).value.result in {None, Some(TInt), Some(TString)}
    ensures forall t :: t in SignatureOf(name).value.params ==> t == TString
  {
  }

  /** A reply of the kind a signature promises. */
  predicate ReplyMatches(result: Option<Type>, v: RuntimeValue) {
    match result
    case None => v.RuntimeInt?
    case Some(TInt) => v.RuntimeInt?
    case Some(TString) => v.RuntimeString?
    case _ => false
  }

  /** The Runtime answers every call of a declared function with the promised kind, or throws. */
  ghost predicate KeepsSignatures(w: World) {
    forall tr: Trace, ev: Event ::
      SignatureOf(ev.name).Some? && w.runtime(tr, ev).Returned?
      ==> ReplyMatches(SignatureOf(ev.name).value.result, w.runtime(tr, ev).value)
  }

  /** The Runtime functions a program can call, by the names it calls them. */
  lemma RuntimeFunctions()
    ensures SignatureOf(QualifiedName(Ascii("runtime"), Ascii("log"))) == Some(Signature([TString], None))
    ensures SignatureOf(QualifiedName(Ascii("runtime"), Ascii("ipc_listen"))) == Some(Signature([], Some(TInt)))
    ensures SignatureOf(QualifiedName(Ascii("runtime"), Ascii("ipc_receive"))) == Some(Signature([], Some(TString)))
    ensures SignatureOf(QualifiedName(Ascii("runtime"), Ascii("ipc_send"))) == Some(Signature([TString], Some(TInt)))
  {
    hide QualifiedName, Ascii, SignatureOf;
    Dotted("runtime", "log");
    Dotted("runtime", "ipc_listen");
    Dotted("runtime", "ipc_receive");
    Dotted("runtime", "ipc_send");
    Signatures();
  }

  lemma Signatures()
    ensures SignatureOf(Ascii("runtime" + "." + "log")) == Some(Signature([TString], None))
    ensures SignatureOf(Ascii("runtime" + "." + "ipc_listen")) == Some(Signature([], Some(TInt)))
    ensures SignatureOf(Ascii("runtime" + "." + "ipc_receive")) == Some(Signature([], Some(TString)))
    ensures SignatureOf(Ascii("runtime" + "." + "ipc_send")) == Some(Signature([TString], Some(TInt)))
  {
    hide Ascii;
    assert "runtime" + "." + "log" == "runtime.log";
    assert "runtime" + "." + "ipc_listen" == "runtime.ipc_listen";
    assert "runtime" + "." + "ipc_receive" == "runtime.ipc_receive";
    assert "runtime" + "." + "ipc_send" == "runtime.ipc_send";
    assert |Ascii("runtime.log")| == 11 && |Ascii("runtime.ipc_listen")| == 18 && |Ascii("runtime.ipc_receive")| == 19 && |Ascii("runtime.ipc_send")| == 16;
  }

  lemma Dotted(namespace: string, name: string)
    ensures QualifiedName(Ascii(namespace), Ascii(name)) == Ascii(namespace + "." + name)
  {
  }
}
