/** The fixed help texts the engine shows when it has no lyrics, paragraph by
    paragraph. The regional search's suggestions entry and the Tamil lyrics
    helper share the strategies, websites and tips paragraphs. */
module Canned {
  import opened Strings

  /** The strategies paragraph up to the place where the song is named. */
  const StrategiesHead := "🔍 **Try these search strategies:**\n\n1. **Search with movie name**: \"[Movie Name] + "

  /** The rest of the strategies paragraph and the blank line after it. */
  const StrategiesRest := "\"\n2. **Use Tamil script**: If you know the Tamil spelling\n"
    + "3. **Try different spellings**: Tamil names have multiple English spellings\n"
    + "4. **Include composer**: Add music director name to search\n\n"

  const Websites := "🌐 **Recommended Tamil lyrics websites:**\n• TamilPaa.com\n"
    + "• Lyricstamil.com  \n• Tamillyrics.hoodi.com\n• A2zlyrics.com (Tamil section)\n\n"

  const ProTips := "💡 **Pro tips:**\n• Tamil songs often have better results when searched by movie name\n"
    + "• Include the year of release for more accurate results\n"
    + "• Try both original Tamil and transliterated versions"

  /** The closing paragraph of the suggestions entry, around the query. */
  const SpecificHead := "\n\n🎵 **For \""
  const SpecificTail := "\" specifically, try:**\n• \"god-bless-you-lyrics\"\n• \"godbless-tamil-song\"\n"
    + "• Include movie name if known\n• Search \"Anirudh Ravichander God Bless You\""

  /** Everything of the advice after the song's name. */
  const AdviceRest := StrategiesRest + Websites + ProTips

  /** The strategies, websites and tips paragraphs, naming `song`. */
  function Advice(song: string): string {
    StrategiesHead + song + AdviceRest
  }

  lemma AdviceNamesSong(song: string)
    ensures Contains(Advice(song), song)
  {
    ContainsInfix(StrategiesHead, song, AdviceRest);
  }

  /** The guidance shown when no source has the lyrics, after the song's
      title and artist. */
  const NotFoundHead := "We couldn't find lyrics for \""
  const NotFoundRest := ".\n\nFor Tamil songs, try searching with:\n• Original Tamil script\n"
    + "• English transliteration\n• Movie name + song name\n\n"
    + "Alternative sources to try:\n• Tamil lyrics websites\n• Movie soundtrack databases\n"
    + "• Regional music platforms"

  /** The tips below an error message. */
  const ErrorTips := "\n\n## Tips:\n- Try searching for a different version of the song\n"
    + "- Check if the song is available on Genius\n- Some songs may not have lyrics available"

  /** The text after the title while lyrics are loading. */
  const LoadingTail := "\"\n\nPlease wait while we fetch the lyrics..."

  /** The heads of the markdown forms. */
  const ErrorHead := "# Error\n\n"
  const LoadingHead := "# Loading lyrics for \""
  const ArtistLabel := "\n\n**Artist:** "
}
