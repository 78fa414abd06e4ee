/** The decisions of the plugin's command and event hooks in src/lib.rs:
    `/SETLANG`, `/OFFLANG`, `/LSAY` and `/LME`, and the receive hook for
    incoming messages. Each hook is modelled by what it decides: whether
    the registry changes, what it returns to the client, and which lines,
    commands and events it causes, with the worker thread's result
    computed in sequence. */
module Handlers {
  import opened Wrappers
  import opened Languages
  import opened Registry
  import opened Translator
  import opened Hexchat

  // ---------------------------------------------------------------------
  // /SETLANG

  /** What `/SETLANG` answers: it turns translation on from the first
      language to the second, or prints the "bad language parameters"
      notice, or prints its usage line, or prints nothing. */
  datatype SetLangReply =
    | TurnOn(source: LangInfo, target: LangInfo)
    | BadParameters
    | Usage
    | NoReply

  /** `on_cmd_setlang` as written: the two lookups are nested `if let`s
      with no `else`, so an unknown language falls through silently and
      only two equal languages get the notice. This is the decision the
      handler below makes. */
  function DecideSetLangAsWritten(word: seq<string>): (r: SetLangReply)
    ensures r == Usage <==> |word| != 3
    ensures r.TurnOn? ==> LookupLang(word[1]) == Some(r.source) && LookupLang(word[2]) == Some(r.target)
                          && r.source != r.target
    ensures r == BadParameters ==> LookupLang(word[1]).Some? && LookupLang(word[1]) == LookupLang(word[2])
    ensures r == NoReply <==> |word| == 3 && (LookupLang(word[1]).None? || LookupLang(word[2]).None?)
  {
    if |word| == 3 then
      match (LookupLang(word[1]), LookupLang(word[2]))
      case (Some(s), Some(t)) => if s != t then TurnOn(s, t) else BadParameters
      case _ => NoReply
    else Usage
  }

  /** The corrected decision, as the notice means it: every case that
      does not activate, the unknown language included, gets the notice.
      It differs from the code as written only in what is printed, never
      in whether the registry changes. */
  function DecideSetLang(word: seq<string>): (r: SetLangReply)
    ensures r == Usage <==> |word| != 3
    ensures r.TurnOn? ==> LookupLang(word[1]) == Some(r.source) && LookupLang(word[2]) == Some(r.target)
                          && r.source != r.target
    ensures r != NoReply
  {
    if |word| == 3 then
      match (LookupLang(word[1]), LookupLang(word[2]))
      case (Some(s), Some(t)) => if s != t then TurnOn(s, t) else BadParameters
      case _ => BadParameters
    else Usage
  }

  /** A language pair that `/SETLANG` can store: the codes of two
      different entries of the table. */
  ghost predicate IsSetLangPair(langs: ChanLangs) {
    exists i, j :: 0 <= i < |SupportedLanguages| && 0 <= j < |SupportedLanguages|
      && SupportedLanguages[i] != SupportedLanguages[j]
      && langs == (SupportedLanguages[i].1, SupportedLanguages[j].1)
  }

  /** Every active context holds a pair that `/SETLANG` can store. */
  ghost predicate RegistryInvariant(m: map<ChanKey, ChanLangs>) {
    forall k :: k in m ==> IsSetLangPair(m[k])
  }

  /** Storing a pair `/SETLANG` can store keeps the registry invariant. */
  lemma InsertKeepsInvariant(m: map<ChanKey, ChanLangs>, k: ChanKey, langs: ChanLangs)
    requires RegistryInvariant(m)
    ensures IsSetLangPair(langs) ==> RegistryInvariant(m[k := langs])
  {
    if IsSetLangPair(langs) {
      var updated := m[k := langs];
      forall k' | k' in updated ensures IsSetLangPair(updated[k']) {
        if k' != k {
          assert k' in m && updated[k'] == m[k'];
        }
      }
    }
  }

  /** Removing an entry keeps the registry invariant. */
  lemma RemoveKeepsInvariant(m: map<ChanKey, ChanLangs>, k: ChanKey)
    requires RegistryInvariant(m)
    ensures RegistryInvariant(m - {k})
  {
    forall k' | k' in m - {k} ensures IsSetLangPair((m - {k})[k']) {
      assert (m - {k})[k'] == m[k'];
    }
  }

  /** `/SETLANG` turns translation on exactly when it is given two words
      after the command, each names a supported language, and the two
      resolve to different entries; the languages it activates are those
      entries, each the first in table order that the user's word names. */
  lemma SetLangTurnsOnIff(word: seq<string>)
    ensures DecideSetLang(word).TurnOn? <==>
              && |word| == 3
              && LookupLang(word[1]).Some? && LookupLang(word[2]).Some?
              && LookupLang(word[1]).value != LookupLang(word[2]).value
    ensures DecideSetLang(word).TurnOn? ==>
              var s, t := DecideSetLang(word).source, DecideSetLang(word).target;
              && s in SupportedLanguages && t in SupportedLanguages && s != t
              && Matches(Lower(word[1]), s) && Matches(Lower(word[2]), t)
  {
    if DecideSetLang(word).TurnOn? {
      var s, t := DecideSetLang(word).source, DecideSetLang(word).target;
      assert LookupLang(word[1]) == Some(s) && LookupLang(word[2]) == Some(t);
    }
  }

  /** Under the corrected decision, the wrong number of words gets the
      usage line, and a language named twice (in any spelling that resolves
      to the same entry) or an unknown language gets the notice; none of
      them activates. */
  lemma SetLangRejects(word: seq<string>)
    ensures |word| != 3 ==> DecideSetLang(word) == Usage
    ensures |word| == 3 && LookupLang(word[1]).Some? && LookupLang(word[1]) == LookupLang(word[2]) ==>
              DecideSetLang(word) == BadParameters
    ensures |word| == 3 && Lower(word[1]) == Lower(word[2]) ==> !DecideSetLang(word).TurnOn?
    ensures |word| == 3 && (LookupLang(word[1]).None? || LookupLang(word[2]).None?) ==>
              DecideSetLang(word) == BadParameters
  {
    if |word| == 3 && Lower(word[1]) == Lower(word[2]) {
      LookupIgnoresCase(word[1], word[2]);
    }
  }

  /** The two decisions differ only on an unknown language, where the code
      as written prints nothing although its notice tells the user to
      consult `/LISTLANG`; whether the registry changes is the same. */
  lemma UnknownLanguageGetsNoReply(word: seq<string>)
    ensures DecideSetLangAsWritten(word).TurnOn? <==> DecideSetLang(word).TurnOn?
    ensures DecideSetLangAsWritten(word).TurnOn? ==> DecideSetLangAsWritten(word) == DecideSetLang(word)
    ensures |word| == 3 && LookupLang(word[1]).None? ==>
              DecideSetLangAsWritten(word) == NoReply && DecideSetLang(word) == BadParameters
    ensures DecideSetLangAsWritten(word) != DecideSetLang(word) ==>
              |word| == 3 && (LookupLang(word[1]).None? || LookupLang(word[2]).None?)
  {
  }

  /** A pair `/SETLANG` activates satisfies the registry invariant. */
  lemma SetLangStoresCodes(word: seq<string>)
    ensures DecideSetLangAsWritten(word).TurnOn? ==>
              IsSetLangPair((DecideSetLangAsWritten(word).source.1, DecideSetLangAsWritten(word).target.1))
  {
    UnknownLanguageGetsNoReply(word);
    SetLangTurnsOnIff(word);
  }

  /** `on_cmd_setlang`: decides as the code is written, activates the current context with the two
      table codes (never the user's spelling) when the decision is to turn
      on, and returns `Eat::All`; activation panics when the host does not
      name the network or the channel. */
  method OnCmdSetLang(reg: ChannelRegistry, host: Host, word: seq<string>)
    returns (reply: SetLangReply, r: Outcome<Eat>)
    modifies reg
    ensures reply == DecideSetLangAsWritten(word)
    ensures !reply.TurnOn? ==> r == Returned(EatAll) && reg.chanMap == old(reg.chanMap)
    ensures reply.TurnOn? && CurrentKey(host.network, host.channel).None? ==>
              r.Panicked? && reg.chanMap == old(reg.chanMap)
    ensures reply.TurnOn? && CurrentKey(host.network, host.channel).Some? ==>
              && r == Returned(EatAll)
              && reg.chanMap == old(reg.chanMap)[CurrentKey(host.network, host.channel).value :=
                                                   (reply.source.1, reply.target.1)]
    ensures RegistryInvariant(old(reg.chanMap)) ==> RegistryInvariant(reg.chanMap)
  {
    reply := DecideSetLangAsWritten(word);
    if reply.TurnOn? {
      SetLangStoresCodes(word);
      ghost var before := reg.chanMap;
      if RegistryInvariant(before) && CurrentKey(host.network, host.channel).Some? {
        InsertKeepsInvariant(before, CurrentKey(host.network, host.channel).value, (reply.source.1, reply.target.1));
      }
      var activated := reg.Activate(host.network, host.channel, reply.source.1, reply.target.1);
      if activated.Panicked? {
        return reply, Panicked(activated.message);
      }
    }
    r := Returned(EatAll);
  }

  // ---------------------------------------------------------------------
  // /OFFLANG

  /** `on_cmd_offlang`: with no argument it deactivates the current context
      and returns `Eat::All`; with any argument it prints its usage line,
      leaves the registry alone and returns `Eat::All`. Deactivation panics
      when the host does not name the network or the channel. */
  method OnCmdOffLang(reg: ChannelRegistry, host: Host, word: seq<string>)
    returns (r: Outcome<Eat>)
    modifies reg
    ensures |word| != 1 ==> r == Returned(EatAll) && reg.chanMap == old(reg.chanMap)
    ensures |word| == 1 && CurrentKey(host.network, host.channel).None? ==>
              r.Panicked? && reg.chanMap == old(reg.chanMap)
    ensures |word| == 1 && CurrentKey(host.network, host.channel).Some? ==>
              && r == Returned(EatAll)
              && reg.chanMap == old(reg.chanMap) - {CurrentKey(host.network, host.channel).value}
              && reg.GetChannelLangs(host.network, host.channel) == None
    ensures RegistryInvariant(old(reg.chanMap)) ==> RegistryInvariant(reg.chanMap)
  {
    if |word| == 1 {
      ghost var before := reg.chanMap;
      if RegistryInvariant(before) && CurrentKey(host.network, host.channel).Some? {
        RemoveKeepsInvariant(before, CurrentKey(host.network, host.channel).value);
      }
      var deactivated := reg.Deactivate(host.network, host.channel);
      if deactivated.Panicked? {
        return Panicked(deactivated.message);
      }
    }
    r := Returned(EatAll);
  }

  // ---------------------------------------------------------------------
  // /LSAY and /LME

  /** The two commands that share `on_cmd_lsay`; each sends the translated
      text with the client command named in its user data. */
  datatype SayCommand = LSay | LMe {
    function Verb(): (v: string)
      ensures v == "SAY" <==> LSay?
      ensures v == "ME" <==> LMe?
    {
      match this
      case LSay => "SAY"
      case LMe => "ME"
    }
  }

  /** The text the worker thread settles on: the translation when the
      translator succeeds, otherwise the message as the user typed it. */
  function TextToSend(translate: Translate, stripped: string, original: string, langs: ChanLangs): (msg: string)
    ensures translate(stripped, langs.0, langs.1).Ok? ==> msg == translate(stripped, langs.0, langs.1).value
    ensures translate(stripped, langs.0, langs.1).Err? ==> msg == original
  {
    match translate(stripped, langs.0, langs.1)
    case Ok(trans) => trans
    case Err(_) => original
  }

  /** `on_cmd_lsay`: in a context with translation on, it consumes the
      command and later runs `SAY`/`ME` followed by a space and the text
      (translated from the stripped message, or the message itself when
      translation fails) in that context; elsewhere it lets the command
      pass. `word_eol[1]` is indexed without a check. */
  function OnCmdLSay(reg: ChannelRegistry, cmd: SayCommand, host: Host, wordEol: seq<string>,
                     translate: Translate): (r: Outcome<Reaction>)
    reads reg
    ensures reg.GetChannelLangs(host.network, host.channel).None? ==> r == Returned(Reaction(EatNone, []))
    ensures r.Panicked? <==> reg.GetChannelLangs(host.network, host.channel).Some? && |wordEol| < 2
    ensures r.Returned? && r.value.eat == EatAll <==>
              reg.GetChannelLangs(host.network, host.channel).Some? && |wordEol| >= 2
    ensures r.Returned? && r.value.eat == EatAll && !host.contextOpen ==>
              r.value.effects == [Print("Failed to get context.")]
    ensures r.Returned? && r.value.eat == EatAll && host.contextOpen ==>
              var langs := reg.GetChannelLangs(host.network, host.channel).value;
              var outcome := translate(host.strip(wordEol[1]), langs.0, langs.1);
              && |r.value.effects| == 1 && r.value.effects[0].ContextCommand?
              && r.value.effects[0].text == cmd.Verb() + " " + (if outcome.Ok? then outcome.value else wordEol[1])
  {
    match reg.GetChannelLangs(host.network, host.channel)
    case None => Returned(Reaction(EatNone, []))
    case Some(langs) =>
      if |wordEol| < 2 then Panicked("index out of bounds")
      else
        var message := wordEol[1];
        var msg := TextToSend(translate, host.strip(message), message, langs);
        Returned(Reaction(EatAll,
          if host.contextOpen then [ContextCommand(cmd.Verb() + " " + msg)]
          else [Print("Failed to get context.")]))
  }

  /** With today's translator, `/LSAY` and `/LME` send the stripped message
      unchanged. */
  lemma LSayWithIdentityTranslator(reg: ChannelRegistry, cmd: SayCommand, host: Host, wordEol: seq<string>)
    requires reg.GetChannelLangs(host.network, host.channel).Some? && |wordEol| >= 2 && host.contextOpen
    ensures OnCmdLSay(reg, cmd, host, wordEol, GoogleTranslateFree) ==
              Returned(Reaction(EatAll, [ContextCommand(cmd.Verb() + " " + host.strip(wordEol[1]))]))
  {
  }

  // ---------------------------------------------------------------------
  // The receive hook

  /** The marker the receive hook appends to every event it emits, so that
      it can recognise its own events when they come back to it. */
  const Sentinel: string := "~"

  /** The IRC colour prefix (control character 3, colour 13) of the line
      that shows the original text under the translation. */
  const OriginalTextColour: string := [3 as char] + "13"

  /** The arguments of the event the hook emits: the sender, the text, the
      mode character when there is one, and the sentinel. */
  function EmitArgs(sender: string, msg: string, modeChar: string): (args: seq<string>)
    ensures |args| == (if modeChar == "" then 3 else 4)
    ensures args[0] == sender && args[1] == msg && args[|args| - 1] == Sentinel
    ensures modeChar != "" ==> args[2] == modeChar
  {
    if modeChar != "" then [sender, msg, modeChar, Sentinel] else [sender, msg, Sentinel]
  }

  /** `on_recv_message`: in a context with translation on, an event whose
      last word is not the sentinel is consumed, and the callback emits the
      same event with the translated (or, on failure, the original) text
      and the sentinel, followed by a line with the original text or an
      error notice. An inactive context or an event carrying the sentinel
      passes untouched. `word.last().unwrap()` and `word[1]` are not
      checked by the source. */
  function OnRecvMessage(reg: ChannelRegistry, event: string, host: Host, word: seq<string>,
                         translate: Translate): (r: Outcome<Reaction>)
    reads reg
    ensures reg.GetChannelLangs(host.network, host.channel).None? ==> r == Returned(Reaction(EatNone, []))
    ensures reg.GetChannelLangs(host.network, host.channel).Some? && |word| == 0 ==>
              r == Panicked("called `Option::unwrap()` on a `None` value")
    ensures reg.GetChannelLangs(host.network, host.channel).Some? && |word| == 1 && word[0] != Sentinel ==>
              r == Panicked("index out of bounds")
    ensures r.Returned? && r.value.eat == EatAll <==>
              reg.GetChannelLangs(host.network, host.channel).Some? && |word| >= 2 && word[|word| - 1] != Sentinel
    ensures r.Returned? && r.value.eat == EatNone ==> r.value.effects == []
    ensures r.Returned? && r.value.eat == EatAll && !host.contextOpen ==>
              r.value.effects == [Print("Failed to get context.")]
  {
    match reg.GetChannelLangs(host.network, host.channel)
    case None => Returned(Reaction(EatNone, []))
    case Some(langs) =>
      if |word| == 0 then Panicked("called `Option::unwrap()` on a `None` value")
      else if word[|word| - 1] == Sentinel then Returned(Reaction(EatNone, []))
      else if |word| < 2 then Panicked("index out of bounds")
      else
        var sender, message := word[0], word[1];
        var modeChar := if |word| > 2 then word[2] else "";
        var success := translate(host.strip(message), langs.0, langs.1).Ok?;
        var msg := TextToSend(translate, host.strip(message), message, langs);
        Returned(Reaction(EatAll,
          if host.contextOpen then
            [ EmitPrint(event, EmitArgs(sender, msg, modeChar)),
              ContextPrint(if success then OriginalTextColour + message
                           else OriginalTextColour + "Channel Translator: error.") ]
          else [Print("Failed to get context.")]))
  }

  /** The guard: in an inactive context, or for an event whose last word is
      the sentinel, the hook returns `Eat::None`, does nothing, and does not
      depend on the translator, so no translation is asked for. */
  lemma RecvGuard(reg: ChannelRegistry, event: string, host: Host, word: seq<string>,
                  translate: Translate, other: Translate)
    requires reg.GetChannelLangs(host.network, host.channel).None? || (|word| > 0 && word[|word| - 1] == Sentinel)
    ensures OnRecvMessage(reg, event, host, word, translate) == Returned(Reaction(EatNone, []))
    ensures OnRecvMessage(reg, event, host, word, translate) == OnRecvMessage(reg, event, host, word, other)
  {
  }

  /** What the hook emits for an event it takes: the event's own type, the
      sender, the translation or the original text, the mode character
      exactly when the event has a non-empty one, and the sentinel last. */
  lemma RecvEmits(reg: ChannelRegistry, event: string, host: Host, word: seq<string>, translate: Translate)
    requires reg.GetChannelLangs(host.network, host.channel).Some?
    requires |word| >= 2 && word[|word| - 1] != Sentinel && host.contextOpen
    ensures var r := OnRecvMessage(reg, event, host, word, translate);
            var langs := reg.GetChannelLangs(host.network, host.channel).value;
            var outcome := translate(host.strip(word[1]), langs.0, langs.1);
            var modeChar := if |word| > 2 then word[2] else "";
            && r.Returned? && r.value.eat == EatAll && |r.value.effects| == 2
            && r.value.effects[0] == EmitPrint(event, EmitArgs(word[0], if outcome.Ok? then outcome.value else word[1], modeChar))
            && r.value.effects[1] == ContextPrint(OriginalTextColour +
                 if outcome.Ok? then word[1] else "Channel Translator: error.")
  {
  }

  /** No feedback loop: every event the hook emits, fed back to the hook in
      any registry state and with any host and translator, is let through
      untouched. */
  lemma ReemittedEventIgnored(reg: ChannelRegistry, event: string, host: Host, word: seq<string>,
                              translate: Translate, i: nat,
                              reg': ChannelRegistry, host': Host, translate': Translate)
    requires OnRecvMessage(reg, event, host, word, translate).Returned?
    requires i < |OnRecvMessage(reg, event, host, word, translate).value.effects|
    requires OnRecvMessage(reg, event, host, word, translate).value.effects[i].EmitPrint?
    ensures var e := OnRecvMessage(reg, event, host, word, translate).value.effects[i];
            OnRecvMessage(reg', e.event, host', e.args, translate') == Returned(Reaction(EatNone, []))
  {
    var e := OnRecvMessage(reg, event, host, word, translate).value.effects[i];
    assert e.args[|e.args| - 1] == Sentinel;
  }

  /** With today's translator the emitted text is the stripped message. */
  lemma RecvWithIdentityTranslator(reg: ChannelRegistry, event: string, host: Host, word: seq<string>)
    requires reg.GetChannelLangs(host.network, host.channel).Some?
    requires |word| >= 2 && word[|word| - 1] != Sentinel && host.contextOpen
    ensures var r := OnRecvMessage(reg, event, host, word, GoogleTranslateFree);
            && r.Returned? && r.value.effects[0].EmitPrint?
            && r.value.effects[0].args[1] == host.strip(word[1])
            && r.value.effects[1] == ContextPrint(OriginalTextColour + word[1])
  {
  }
}
