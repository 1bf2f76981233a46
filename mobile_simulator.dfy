/**
  The USSD phone simulator (src/components/MobileSimulator.tsx): a screen text driven by
  the option typed into its input, plus a collapsible panel for a phone number and a
  location.
*/
module MobileSimulator {
  const WelcomeScreen: string := "Welcome to the E-referral USSD service. Press 1 for Menu A, Press 2 for Menu B."
  const MenuAScreen: string := "You selected Menu A. Press 1 for Option A1, Press 2 for Option A2."
  const MenuBScreen: string := "You selected Menu B. Press 1 for Option B1, Press 2 for Option B2."
  const InvalidScreen: string := "Invalid option. Please try again."

  /** The screen that Send shows for an input; it does not depend on the current screen. */
  function Respond(input: string): (screen: string)
    ensures screen == MenuAScreen <==> input == "1"
    ensures screen == MenuBScreen <==> input == "2"
    ensures screen == InvalidScreen <==> input != "1" && input != "2"
    ensures screen != WelcomeScreen
  {
    if input == "1" then MenuAScreen
    else if input == "2" then MenuBScreen
    else InvalidScreen
  }

  class Simulator {
    var showPanel: bool
    var telNumber: string
    var longLat: string
    var userInput: string
    var flowState: string

    constructor ()
      ensures !showPanel && telNumber == "" && longLat == "" && userInput == "" && flowState == WelcomeScreen
    {
      showPanel := false;
      telNumber := "";
      longLat := "";
      userInput := "";
      flowState := WelcomeScreen;
    }

    /** Flips the panel; nothing else changes. */
    method TogglePanel()
      modifies this
      ensures showPanel == !old(showPanel)
      ensures telNumber == old(telNumber) && longLat == old(longLat)
      ensures userInput == old(userInput) && flowState == old(flowState)
    {
      showPanel := !showPanel;
    }

    /** Back to the welcome screen with an empty input; the panel and its fields are kept. */
    method ResetFlow()
      modifies this
      ensures flowState == WelcomeScreen && userInput == ""
      ensures showPanel == old(showPanel) && telNumber == old(telNumber) && longLat == old(longLat)
    {
      flowState := WelcomeScreen;
      userInput := "";
    }

    /** Typing into the option input stores the text verbatim. */
    method InputChange(value: string)
      modifies this
      ensures userInput == value
      ensures flowState == old(flowState) && showPanel == old(showPanel)
      ensures telNumber == old(telNumber) && longLat == old(longLat)
    {
      userInput := value;
    }

    /** Send: the screen answers the typed option and the input is cleared. */
    method SendClick()
      modifies this
      ensures flowState == Respond(old(userInput)) && userInput == ""
      ensures showPanel == old(showPanel) && telNumber == old(telNumber) && longLat == old(longLat)
    {
      if userInput == "1" {
        flowState := MenuAScreen;
      } else if userInput == "2" {
        flowState := MenuBScreen;
      } else {
        flowState := InvalidScreen;
      }
      userInput := "";
    }

    /** Typing into the panel's phone number input. */
    method TelNumberChange(value: string)
      modifies this
      ensures telNumber == value
      ensures longLat == old(longLat) && showPanel == old(showPanel)
      ensures userInput == old(userInput) && flowState == old(flowState)
    {
      telNumber := value;
    }

    /** Typing into the panel's location input. */
    method LongLatChange(value: string)
      modifies this
      ensures longLat == value
      ensures telNumber == old(telNumber) && showPanel == old(showPanel)
      ensures userInput == old(userInput) && flowState == old(flowState)
    {
      longLat := value;
    }
  }

  /** Toggling the panel twice restores it and leaves the rest of the simulator alone. */
  method ToggleTwiceRestores(s: Simulator)
    modifies s
    ensures s.showPanel == old(s.showPanel) && s.flowState == old(s.flowState) && s.userInput == old(s.userInput)
  {
    s.TogglePanel();
    s.TogglePanel();
  }

  /** A second Send without typing shows the invalid-option screen, whatever the first showed. */
  method SendTwiceIsInvalid(s: Simulator)
    modifies s
    ensures s.flowState == InvalidScreen && s.userInput == ""
  {
    s.SendClick();
    s.SendClick();
  }
}
