/** controllers/chatController.js: `processarComandoConfig` turns the news subcommand of `/config`
    into a merge write of `receiveNews` and answers with a confirmation; any other parameters get the
    help text. The message sent back is the result; sending it is outside the model. */
module ChatController {
  import opened Results
  import opened JsStrings
  import opened FirebaseService

  const HelpText := "🔧 Comandos de configuração disponíveis:\n    \n/config fontes on - Ativar exibição de fontes\n/config fontes off - Desativar exibição de fontes\n/config noticias on - Ativar recebimento de notícias\n/config noticias off - Desativar recebimento de notícias"

  /** The parameters mention news. */
  predicate IsNewsCommand(params: string) {
    Contains(params, "noticias") || Contains(params, "news")
  }

  /** The requested value of `receiveNews`: on when the parameters say "on", "sim" or "yes"
      anywhere; anything else, "off" included, turns it off. */
  predicate ReceiveNewsRequested(params: string) {
    Contains(params, "on") || Contains(params, "sim") || Contains(params, "yes")
  }

  const ConfirmationPrefix := "✅ Configuração atualizada: recebimento de notícias "

  /** The confirmation sent after the news setting was written: "ativado." when news is turned on,
      "desativado." when it is turned off. */
  function Confirmation(receiveNews: bool): (m: string)
    ensures StartsWith(m, ConfirmationPrefix)
    ensures receiveNews <==> m == ConfirmationPrefix + "ativado."
    ensures !receiveNews <==> m == ConfirmationPrefix + "desativado."
  {
    ConfirmationPrefix + (if receiveNews then "ativado" else "desativado") + "."
  }

  /** The patch written by the news command: `receiveNews` alone. */
  function NewsPatch(receiveNews: bool): (p: Settings)
    ensures p.receiveNews == Some(receiveNews)
    ensures p.showSources.None? && p.language.None? && p.responseLength.None?
  {
    Settings(None, None, None, Some(receiveNews))
  }

  /** `processarComandoConfig`: with news parameters, only `receiveNews` of the user's document is
      merged (the result of the write is not looked at: the confirmation is the same whether or not
      the write failed); with any other parameters nothing is written and the help text is the reply. */
  method ProcessConfigCommand(store: SettingsStore, telefone: string, params: string, writeFails: bool)
    returns (reply: string)
    modifies store
    ensures IsNewsCommand(params) ==> reply == Confirmation(ReceiveNewsRequested(params))
    ensures IsNewsCommand(params) && !writeFails && UserKey(telefone) != "" ==>
              var key := UserKey(telefone);
              store.records == old(store.records)[key := Merge(if key in old(store.records) then old(store.records)[key] else NoSettings,
                                                               NewsPatch(ReceiveNewsRequested(params)))]
    ensures IsNewsCommand(params) && (writeFails || UserKey(telefone) == "") ==> store.records == old(store.records)
    ensures !IsNewsCommand(params) ==> reply == HelpText && store.records == old(store.records)
  {
    if IsNewsCommand(params) {
      var receiveNews := ReceiveNewsRequested(params);
      var _ := store.UpdateUserSettings(telefone, NewsPatch(receiveNews), writeFails);
      return Confirmation(receiveNews);
    }
    reply := HelpText;
  }

  /** After a successful news command only the user's `receiveNews` changed: the other fields of
      their document keep their values (absent ones stay absent). */
  lemma NewsCommandTouchesOnlyReceiveNews(before: Settings, receiveNews: bool)
    ensures var after := Merge(before, NewsPatch(receiveNews));
      after == before.(receiveNews := Some(receiveNews))
  {
  }
}
