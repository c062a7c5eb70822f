/**
 * One row of the download list. The class that backs it (DownloadItem.cs) is not part of this
 * model; its fields are those the services and the view model read and write.
 */
module Items {
  import opened Progress

  const ReadyText := "Klar"
  const DoneText := "Ferdig"
  const FailedText := "Feilet"
  const CanceledText := "Avbrutt"
  const PreparingText := "Forbereder..."

  class DownloadItem {
    var url: string
    var title: string
    var seasonEpisode: string
    /** The status column: the last status text reported, or one the view model sets. */
    var status: Message
    var progress: real
    var isSelected: bool
    var selectedResolution: string
    var selectedLanguage: string
    var availableResolutions: seq<string>

    /** A freshly analysed item: status "Klar" and progress 0. Whether it starts selected, its
        language, resolution and list of resolutions are given, since their defaults live in
        DownloadItem.cs. */
    constructor (url: string, title: string, seasonEpisode: string, isSelected: bool, selectedLanguage: string,
                 selectedResolution: string, availableResolutions: seq<string>)
      ensures this.url == url && this.title == title && this.seasonEpisode == seasonEpisode
      ensures status == Plain(ReadyText) && progress == 0.0
      ensures this.isSelected == isSelected && this.selectedLanguage == selectedLanguage
      ensures this.selectedResolution == selectedResolution && this.availableResolutions == availableResolutions
    {
      this.url := url;
      this.title := title;
      this.seasonEpisode := seasonEpisode;
      status := Plain(ReadyText);
      progress := 0.0;
      this.isSelected := isSelected;
      this.selectedLanguage := selectedLanguage;
      this.selectedResolution := selectedResolution;
      this.availableResolutions := availableResolutions;
    }

    /** The item has already been downloaded. */
    predicate IsDone()
      reads this
    {
      status == Plain(DoneText)
    }
  }
}
